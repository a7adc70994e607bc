/**
 * The conversion request of script.js:14-52 (`timezoneObj`): seven string fields
 * that the menu fills in one at a time, the two methods that store a validated
 * date and time, and the completeness check run before a conversion. Option 4
 * of the menu (script.js:98-113) drives the date and time steps.
 */
module Request {
  import opened JsNumber
  import opened Text
  import opened Validation

  /** The data keys of the record, in declaration order (script.js:15-21). */
  const FieldNames: seq<string> :=
    ["targetTimezone", "originTimezone", "year", "month", "day", "hours", "minutes"]

  /**
   * The names whose value is the empty string (the only falsy string), in the
   * order of `names`.
   */
  function MissingFields(names: seq<string>, values: seq<string>): (missing: seq<string>)
    requires |names| == |values|
    ensures |missing| <= |values|
    ensures forall x :: x in missing ==> x in names
    decreases |values|
  {
    if |values| == 0 then []
    else
      var k := |values| - 1;
      var before := MissingFields(names[..k], values[..k]);
      assert forall x :: x in before ==> x in names by {
        forall x | x in before ensures x in names {
          var j :| 0 <= j < k && names[..k][j] == x;
          assert names[j] == x;
        }
      }
      before + (if values[k] == "" then [names[k]] else [])
  }

  /** Nothing is missing exactly when every value is non-empty. */
  lemma {:induction false} NoneMissing(names: seq<string>, values: seq<string>)
    requires |names| == |values|
    ensures MissingFields(names, values) == [] <==> forall i :: 0 <= i < |values| ==> values[i] != ""
    decreases |values|
  {
    if |values| > 0 {
      var k := |values| - 1;
      NoneMissing(names[..k], values[..k]);
      assert forall i :: 0 <= i < k ==> values[..k][i] == values[i];
    }
  }

  /** With distinct names, a name is reported exactly when its value is empty. */
  lemma {:induction false} MissingExactly(names: seq<string>, values: seq<string>, x: string)
    requires |names| == |values|
    requires forall i, j :: 0 <= i < j < |names| ==> names[i] != names[j]
    ensures x in MissingFields(names, values) <==>
      exists i :: 0 <= i < |names| && names[i] == x && values[i] == ""
    decreases |values|
  {
    if |values| > 0 {
      var k := |values| - 1;
      MissingExactly(names[..k], values[..k], x);
      if x in MissingFields(names, values) {
        if x in MissingFields(names[..k], values[..k]) {
          var i :| 0 <= i < k && names[..k][i] == x && values[..k][i] == "";
          assert names[i] == x && values[i] == "";
        } else {
          assert names[k] == x && values[k] == "";
        }
      } else {
        forall i | 0 <= i < |names| && names[i] == x ensures values[i] != "" {
          if i < k {
            assert names[..k][i] == x;
          }
        }
      }
    }
  }

  /** When only the first value is set, every other name is reported, in order. */
  lemma {:induction false} OnlyFirstSet(names: seq<string>, values: seq<string>)
    requires |names| == |values| >= 1
    requires values[0] != ""
    requires forall i :: 1 <= i < |values| ==> values[i] == ""
    ensures MissingFields(names, values) == names[1..]
    decreases |values|
  {
    var k := |values| - 1;
    if k == 0 {
      assert names[..0] == [] && values[..0] == [];
    } else {
      OnlyFirstSet(names[..k], values[..k]);
      assert names[..k][1..] + [names[k]] == names[1..];
    }
  }

  /** The seven data keys are distinct. */
  lemma FieldNamesDistinct()
    ensures forall i, j :: 0 <= i < j < |FieldNames| ==> FieldNames[i] != FieldNames[j]
  {
  }

  /** How a call to option 4 ended. `Fault` stands for the TypeError that addDate
      or addTime throws when the input has no second component. */
  datatype EntryOutcome = DateRejected | TimeRejected | Stored | Fault

  class ConversionRequest {
    var targetTimezone: string
    var originTimezone: string
    var year: string
    var month: string
    var day: string
    var hours: string
    var minutes: string

    /** Every field starts empty (script.js:15-21). */
    constructor ()
      ensures Values() == ["", "", "", "", "", "", ""]
    {
      targetTimezone, originTimezone := "", "";
      year, month, day, hours, minutes := "", "", "", "", "";
    }

    /** The field values, in the order of FieldNames. */
    function Values(): (v: seq<string>)
      reads this
      ensures |v| == |FieldNames|
    {
      [targetTimezone, originTimezone, year, month, day, hours, minutes]
    }

    /** Option 2 (script.js:92-94): store the target timezone as entered. */
    method SetTargetTimezone(tz: string)
      modifies this
      ensures targetTimezone == tz
      ensures Values() == old(Values())[0 := tz]
    {
      targetTimezone := tz;
    }

    /** Option 3 (script.js:95-97): store the origin timezone as entered. */
    method SetOriginTimezone(tz: string)
      modifies this
      ensures originTimezone == tz
      ensures Values() == old(Values())[1 := tz]
    {
      originTimezone := tz;
    }

    /**
     * addDate (script.js:22-27): day and month padded, year verbatim (a missing
     * third component is `undefined` in the source and the empty string here;
     * both are falsy). With no second component the source throws after storing
     * the day: `ok` is false and the month and year are left as they were.
     */
    method AddDate(date: string) returns (ok: bool)
      modifies this
      ensures var parts := Split(date, '/');
        && ok == (|parts| >= 2)
        && day == Pad2(parts[0])
        && month == (if ok then Pad2(parts[1]) else old(month))
        && year == (if !ok then old(year) else if |parts| >= 3 then parts[2] else "")
      ensures targetTimezone == old(targetTimezone) && originTimezone == old(originTimezone)
      ensures hours == old(hours) && minutes == old(minutes)
    {
      var parts := Split(date, '/');
      day := Pad2(parts[0]);
      if |parts| < 2 {
        return false;
      }
      month := Pad2(parts[1]);
      year := if |parts| >= 3 then parts[2] else "";
      return true;
    }

    /**
     * addTime (script.js:28-31): hours and minutes padded. With no second
     * component the source throws after storing the hours: `ok` is false and the
     * minutes are left as they were.
     */
    method AddTime(time: string) returns (ok: bool)
      modifies this
      ensures var parts := Split(time, ':');
        && ok == (|parts| >= 2)
        && hours == Pad2(parts[0])
        && minutes == (if ok then Pad2(parts[1]) else old(minutes))
      ensures targetTimezone == old(targetTimezone) && originTimezone == old(originTimezone)
      ensures year == old(year) && month == old(month) && day == old(day)
    {
      var parts := Split(time, ':');
      hours := Pad2(parts[0]);
      if |parts| < 2 {
        return false;
      }
      minutes := Pad2(parts[1]);
      return true;
    }

    /**
     * checkData (script.js:35-51): walk the keys in declaration order and collect
     * those whose value is falsy. The method-valued keys are functions, which are
     * truthy, so only the seven data keys can be reported.
     */
    method CheckData() returns (complete: bool, missing: seq<string>)
      ensures missing == MissingFields(FieldNames, Values())
      ensures complete <==> (targetTimezone != "" && originTimezone != "" &&
                             year != "" && month != "" && day != "" && hours != "" && minutes != "")
      ensures complete <==> missing == []
      ensures forall x :: x in missing <==>
        exists i :: 0 <= i < |FieldNames| && FieldNames[i] == x && Values()[i] == ""
    {
      var values := Values();
      missing := [];
      var i := 0;
      while i < |values|
        invariant 0 <= i <= |values|
        invariant missing == MissingFields(FieldNames[..i], values[..i])
      {
        assert FieldNames[..i + 1][..i] == FieldNames[..i] && values[..i + 1][..i] == values[..i];
        if values[i] == "" {
          missing := missing + [FieldNames[i]];
        }
        i := i + 1;
      }
      assert FieldNames[..i] == FieldNames && values[..i] == values;
      complete := |missing| == 0;
      NoneMissing(FieldNames, values);
      assert values[0] == targetTimezone && values[1] == originTimezone && values[2] == year;
      assert values[3] == month && values[4] == day && values[5] == hours && values[6] == minutes;
      FieldNamesDistinct();
      forall x ensures x in missing <==>
        exists i :: 0 <= i < |FieldNames| && FieldNames[i] == x && values[i] == ""
      {
        MissingExactly(FieldNames, values, x);
      }
    }

    /**
     * Option 4 (script.js:98-113): validate the date and stop if it is invalid;
     * store it; then validate the time and stop if it is invalid; store it. The
     * time answer is read only when the date step got through.
     */
    method EnterDateTime(date: string, time: string) returns (outcome: EntryOutcome)
      modifies this
      ensures targetTimezone == old(targetTimezone) && originTimezone == old(originTimezone)
      ensures !CheckDateValidity(date) ==>
        outcome == DateRejected && Values() == old(Values())
      ensures CheckDateValidity(date) ==> var dp := Split(date, '/');
        && day == Pad2(dp[0])
        && (|dp| < 2 ==> outcome == Fault && Values() == old(Values())[4 := day])
        && (|dp| >= 2 ==> month == Pad2(dp[1]) && year == (if |dp| >= 3 then dp[2] else ""))
      ensures CheckDateValidity(date) && |Split(date, '/')| >= 2 ==>
        var tp := Split(time, ':');
        && (!CheckTimeValidity(time) ==>
              outcome == TimeRejected && hours == old(hours) && minutes == old(minutes))
        && (CheckTimeValidity(time) ==> hours == Pad2(tp[0]))
        && (CheckTimeValidity(time) && |tp| < 2 ==> outcome == Fault && minutes == old(minutes))
        && (CheckTimeValidity(time) && |tp| >= 2 ==> outcome == Stored && minutes == Pad2(tp[1]))
      ensures outcome == Stored ==> day != "" && month != "" && hours != "" && minutes != ""
    {
      if !CheckDateValidity(date) {
        return DateRejected;
      }
      var ok := AddDate(date);
      if !ok {
        return Fault;
      }
      if !CheckTimeValidity(time) {
        return TimeRejected;
      }
      ok := AddTime(time);
      if !ok {
        return Fault;
      }
      return Stored;
    }
  }

  /**
   * A digit-only date and time that option 4 stores still satisfy the validators
   * when read back from the record: padding keeps every component's value.
   */
  lemma StoredDateStaysValid(dp: seq<string>, tp: seq<string>)
    requires |dp| >= 3 && AllDigits(dp[0]) && AllDigits(dp[1]) && AllDigits(dp[2])
    requires |tp| >= 2 && AllDigits(tp[0]) && AllDigits(tp[1])
    requires DateComponentsValid(ToNumber(dp[0]), ToNumber(dp[1]), ToNumber(dp[2]))
    requires TimeComponentsValid(ToNumber(tp[0]), ToNumber(tp[1]))
    ensures DateComponentsValid(ToNumber(Pad2(dp[0])), ToNumber(Pad2(dp[1])), ToNumber(dp[2]))
    ensures TimeComponentsValid(ToNumber(Pad2(tp[0])), ToNumber(Pad2(tp[1])))
  {
    PadKeepsValue(dp[0]);
    PadKeepsValue(dp[1]);
    PadKeepsValue(tp[0]);
    PadKeepsValue(tp[1]);
  }

  // The session inputs are written as concatenations of their components: given
  // a single literal, Dafny unrolls `Split` over it character by character.

  /** The date of the sessions below is valid and splits as written. */
  lemma SessionDate()
    ensures Split("15" + "/" + "06" + "/" + "2024", '/') == ["15", "06", "2024"]
    ensures CheckDateValidity("15" + "/" + "06" + "/" + "2024")
  {
    DateOfParts("15", "06", "2024");
    assert ToNumber("15") == Int(15) by { TwoDigits("15"); }
    assert ToNumber("06") == Int(6) by { TwoDigits("06"); }
    assert ToNumber("2024") == Int(2024) by { FourDigits("2024"); }
    assert DateComponentsValid(Int(15), Int(6), Int(2024));
    assert Join(["15", "06", "2024"], '/') == "15" + "/" + "06" + "/" + "2024";
    JoinThenSplit(["15", "06", "2024"], '/');
  }

  /** The time of the sessions below is valid and splits as written. */
  lemma SessionTime()
    ensures Split("14" + ":" + "30", ':') == ["14", "30"]
    ensures CheckTimeValidity("14" + ":" + "30")
  {
    TimeOfParts("14", "30");
    assert ToNumber("14") == Int(14) by { TwoDigits("14"); }
    assert ToNumber("30") == Int(30) by { TwoDigits("30"); }
    assert Join(["14", "30"], ':') == "14" + ":" + "30";
    JoinThenSplit(["14", "30"], ':');
  }

  /** With only the target timezone entered, the other six fields are reported
      missing, in declaration order. */
  method SessionWithOnlyTarget() {
    var request := new ConversionRequest();
    request.SetTargetTimezone("America/New_York");
    var complete, missing := request.CheckData();
    OnlyFirstSet(FieldNames, request.Values());
    assert !complete && missing == ["originTimezone", "year", "month", "day", "hours", "minutes"];
  }

  /** After both timezones and a valid date and time, nothing is missing. */
  method SessionComplete() {
    var request := new ConversionRequest();
    request.SetTargetTimezone("America/New_York");
    request.SetOriginTimezone("Europe/London");
    assert request.Values()[0] == "America/New_York";
    var date, time := "15" + "/" + "06" + "/" + "2024", "14" + ":" + "30";
    SessionDate();
    SessionTime();
    var outcome := request.EnterDateTime(date, time);
    assert outcome == Stored && request.year == "2024";
    assert request.targetTimezone == "America/New_York" && request.originTimezone == "Europe/London";
    var complete, missing := request.CheckData();
    assert complete && missing == [];
  }
}

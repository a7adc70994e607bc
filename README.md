# Timezone converter: input validation and the conversion request

A model, in Dafny, of the input layer of a small interactive timezone converter
written in JavaScript for Node (`script.js`). The program keeps one conversion
request (`timezoneObj`): seven string fields for the target and origin timezone,
year, month, day, hours and minutes. The menu fills them in one at a time. Option 4
asks for a date "DD/MM/YYYY" and a time "hh:mm". It checks each with a validator and
stores it. A day, month, hours or minutes component whose `.length` is not 2 gets
one "0" in front (so "5" becomes "05", but "" becomes "0" and "123" becomes
"0123"); the year is stored as entered. Before a conversion, `checkData` lists every field that is
still empty.

The model has four modules:

- `JsNumber` (jsnumber.dfy): a JavaScript number is modelled as an integer or NaN.
  `ToNumber` is the coercion that unary `+` and the relational operators apply to
  a string. `Less` and `Greater` are the comparisons: anything compared with NaN
  is false.
- `Text` (text.dfy): `Split`, which behaves like `String.prototype.split` with a
  one-character separator. `Join`, its inverse, is used only as a reference. `Pad2`
  is the two-character padding, which tests JavaScript's `.length`: UTF-16 code
  units (`Utf16Length`), so an emoji counts as two.
- `Validation` (validation.dfy): `checkDateValidity` and `checkTimeValidity`, both
  after coercion (`DateComponentsValid`, `TimeComponentsValid`) and on the raw
  string (`CheckDateValidity`, `CheckTimeValidity`). Also the month table
  (`MonthLength`), the code's leap rule (`Leap`) and the Gregorian rule
  (`GregorianLeap`), and worked examples.
- `Request` (request.dfy): the class `ConversionRequest` with the fields of
  `timezoneObj`. Its methods are `AddDate`, `AddTime`, `CheckData`, the setters of
  options 2 and 3, and `EnterDateTime` (option 4). `MissingFields` is the list
  `checkData` reports. Two client methods, `SessionWithOnlyTarget` and
  `SessionComplete`, replay a session using only the contracts.

Where the code's evident intent and its behaviour differ, the model follows the code:

- **Leap years.** The comment at script.js:146 points to the Gregorian rule. But
  line 153 sets `leap = 1` for every multiple of 4, so the century tests at lines
  148-152 have no effect. `Leap(y)` is `y % 4 == 0`. `LeapVersusGregorian` shows
  the two rules differ exactly on centuries that are not multiples of 400, so
  29/02/1900 is accepted (`AcceptsFebruary29In1900`).
- **Non-numeric components.** One might expect them to be rejected. In the code,
  NaN never fails a comparison. So a date whose month is NaN is accepted unless its
  year is negative (script.js:143-145). A date whose day is NaN is accepted unless
  its year is negative or its month is outside [1,12] (script.js:155-157). A NaN
  year only means February has no 29th; it never rejects. A one-component date
  such as "12" is accepted too, because its month and year are `undefined`. An
  empty time "" is accepted as well (`AcceptsMissingComponents`).
- **Missing components.** These accepted inputs reach `addDate`/`addTime`, which
  read `.length` of the missing second component and throw a TypeError. The day
  (or the hours) has already been stored by then. The model returns this as the
  outcome `Fault` and keeps that partial update.
- **Empty year.** An empty component coerces to 0. So "01/01/" is a valid date with
  year 0, and the year stored is the empty string. `checkData` then still reports
  the year as missing.

## Model

| member | source | states |
|---|---|---|
| JsNumber.LeadingZero | script.js:139-141 | a leading "0" keeps a digit run's numeric value |
| JsNumber.OneDigit | script.js:139-141 | a one-digit string, and the same digit with a minus sign, coerce to that digit's value |
| JsNumber.TwoDigits | script.js:139-141 | a two-digit string coerces to its decimal value |
| JsNumber.FourDigits | script.js:139-141 | a four-digit string coerces to its decimal value |
| Text.Split | script.js:23 | split always yields at least one piece, and no piece contains the separator |
| Text.SplitThenJoin | script.js:23 | splitting loses nothing: joining the pieces with the separator gives back the input |
| Text.SplitOfPiece | script.js:138 | a string without the separator splits into itself alone |
| Text.SplitAfterPiece | script.js:138 | a piece followed by the separator splits off as the first piece |
| Text.JoinThenSplit | script.js:138 | pieces without the separator, joined and split again, come back unchanged |
| Text.Utf16Length | script.js:24-25 | `.length` counts UTF-16 code units: between one and two per character |
| Text.Utf16LengthOfBmp | script.js:30-31 | for characters inside the Basic Multilingual Plane, `.length` is the number of characters |
| Text.Pad2 | script.js:24-25 | a component whose `.length` is 2 is kept; any other gets exactly one character more; a component of `.length` 1 or 2 ends up with `.length` 2; the component is always the tail of the result and only zeros precede it |
| Text.PadCountsCodeUnits | script.js:24-25 | a lone emoji (two code units) is kept; a letter followed by an emoji (three code units) gets a "0" in front |
| Text.PadKeepsValue | script.js:30-31 | padding a digit-only component (even an empty one) keeps its coerced numeric value |
| Validation.LeapVersusGregorian | script.js:146-154 | every Gregorian leap year is leap under the code's rule; the two differ exactly on centuries not divisible by 400 |
| Validation.MonthLength | script.js:158-182 | 31 days exactly for months 1,3,5,7,8,10,12; 30 exactly for 4,6,9,11; February has 29 iff the code's leap rule holds, else 28 |
| Validation.DateComponentsValid | script.js:142-184 | rejects a negative year and a month outside [1,12]; for integer components it accepts iff year >= 0, 1 <= month <= 12 and 1 <= day <= month length; February allows 28 plus 1 exactly when year % 4 == 0; with a NaN year and integer day and month, it accepts iff 1 <= month <= 12 and the day lies in the month, February ending on the 28th; a NaN month is accepted unless the year is negative; a NaN day is accepted unless year or month is out of range |
| Validation.TimeComponentsValid | script.js:196-202 | for integer components it accepts iff 0 <= hours <= 23 and 0 <= minutes <= 59; an out-of-range component rejects; with one component NaN, it accepts iff the other is not out of range, so two NaN components are accepted |
| Validation.DateOfComponents | script.js:138-141 | a date of three or more "/"-separated components is judged on the coerced first three; further components are ignored |
| Validation.TimeOfComponents | script.js:193-195 | a time of two or more ":"-separated components is judged on the coerced first two |
| Validation.DateOfParts | script.js:138-141 | "d/m/y" is judged on the coerced d, m and y |
| Validation.TimeOfParts | script.js:193-195 | "h:m" is judged on the coerced h and m |
| Validation.RejectsFebruary29In2023 | script.js:178-181 | 29/02/2023 is rejected |
| Validation.AcceptsFebruary29InLeapYears | script.js:147-181 | 29/02/2024 and 29/02/2000 are accepted |
| Validation.AcceptsFebruary29In1900 | script.js:147-154 | 29/02/1900 is accepted although 1900 is not a Gregorian leap year |
| Validation.RejectsOutOfRange | script.js:143-177 | 31/04/2024, 01/13/2024 and 01/01/-1 are rejected |
| Validation.AcceptsMissingComponents | script.js:139-184 | "12" (month and year NaN), the empty time and "01/01/" (year 0) are accepted |
| Validation.TimeExamples | script.js:196-202 | "23:59" is accepted; "24:00" and "12:60" are rejected |
| Request.MissingFields | script.js:37-42 | the reported list is no longer than the fields and holds only field names |
| Request.NoneMissing | script.js:43-51 | nothing is reported exactly when every field is non-empty |
| Request.MissingExactly | script.js:38-42 | with distinct names, a name is reported iff its field is empty |
| Request.OnlyFirstSet | script.js:38-42 | with only the first field set, every other name is reported, in declaration order |
| Request.FieldNamesDistinct | script.js:15-21 | the seven data keys are distinct |
| Request.ConversionRequest.constructor | script.js:14-21 | every field starts as the empty string |
| Request.ConversionRequest.Values | script.js:15-21 | the field values, one per data key, in declaration order |
| Request.ConversionRequest.SetTargetTimezone | script.js:92-94 | option 2 stores the entered target timezone and changes no other field |
| Request.ConversionRequest.SetOriginTimezone | script.js:95-97 | option 3 stores the entered origin timezone and changes no other field |
| Request.ConversionRequest.AddDate | script.js:22-27 | day and month padded, year verbatim ("" when absent); with no second component it faults after storing the day; the timezones and time fields are unchanged |
| Request.ConversionRequest.AddTime | script.js:28-31 | hours and minutes padded; with no second component it faults after storing the hours; the timezones and date fields are unchanged |
| Request.ConversionRequest.CheckData | script.js:35-51 | returns exactly the empty fields in declaration order; true iff all seven fields are non-empty, iff nothing is reported; a name is reported iff its field is empty |
| Request.ConversionRequest.EnterDateTime | script.js:98-113 | an invalid date changes nothing and skips the time; a valid date is stored, or faults after the day when it has one component; after that, an invalid time keeps the stored date and leaves hours and minutes unchanged; a valid time is stored or faults after the hours; once stored, day, month, hours and minutes are non-empty; the timezones never change |
| Request.StoredDateStaysValid | script.js:98-113 | a digit-only date and time that option 4 accepted still pass both validators when read back padded from the record |

## Left out

- convertTimezone (script.js:53-67) is left out. It delegates to the `timezone-support` library (`findTimeZone`, `getUnixTime`, `getZonedTime`), whose offset and daylight-saving data is not part of this model. One quirk: line 66 prints the stored `this.minutes`, not the converted minutes. Lines 60-61 also replace both timezone fields with the library's objects. So option 5 is modelled only up to `CheckData`.
- ToNumber reads only the empty string and optionally signed decimal digit runs. JavaScript also accepts surrounding white space, fractions, exponents, hexadecimal/octal/binary prefixes and "Infinity". The model reads these as NaN, so it may wrongly accept them where the source would reject an out-of-range value. The reverse also happens: a year the source reads as a multiple of 4 but the model reads as NaN ("2024 " with a trailing blank, which readline keeps, or "2e3") ends February on the 28th, so such a 29 February is rejected where the source accepts it. Digit runs beyond 2^53, where JavaScript loses precision, are read exactly.
- The try/catch wrappers (script.js:137, 185-188, 192, 203-206) are left out. On a string input nothing inside them throws, and the prompt always yields a string.
- The readline prompts, the menu loop, exit (option 0), listing and filtering timezones (option 1, script.js:127-134), the field dump (option 6) and every `console.log` are I/O. The answers to the prompts are parameters. `CheckData` returns the reported list instead of printing it.
- After a `Fault`, the source's handler promise is rejected without a handler. The model does not say what then happens to the session.
- AddDate: when the year component is absent, the source stores `undefined` and the model stores the empty string. Both are falsy, so `checkData` treats them the same. Only the field dump of option 6 would show the difference.

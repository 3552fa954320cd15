# Mentor dashboard: availability editing and profile validation

This project is a Dafny model of the two pieces of logic in a mentoring platform's
mentor-dashboard front end.

**The availability page** (`pages/Availability.jsx`) keeps two things:
- a list of recurring weekly slots `{day, startTime, endTime}`;
- a map of date overrides, from a `YYYY-MM-DD` key to a list of `{startTime, endTime}` slots.

Times are stored as 24-hour `"HH:MM"` strings. A picker edits them as a 12-hour
(hour, minute, AM/PM) triple. What a date offers depends on whether its key is in the map:
- key present with an empty list: "Unavailable";
- key present with a non-empty list: the override slots;
- key absent: the weekly slots of that weekday.

**The profile page** (`pages/EditProfile.jsx`) validates the e-mail, phone, name and UPI ID
fields. It records each edit in the mentor record together with its error message. It also
tracks which page section is open, and which avatar picture to draw.

Modules, one per concern:
- `Digits` (digits.dfy): decimal `toString`, `padStart(_, '0')`, and the value of a digit run.
- `TimeCodec` (time_codec.dfy): `parseTime` and `formatTime`, with both round trips.
- `Calendar` (calendar.dfy): local dates, the `YYYY-MM-DD` override key and the weekday.
- `Schedule` (schedule.dfy): the slot data as values, the edits as functions, and date resolution.
- `AvailabilityPage` (availability.dfy): the class `AvailabilityEditor`, whose methods perform the page's edits in place.
- `Validation` (validation.dfy): `validateField`, with its four regular expressions as character predicates.
- `EditProfilePage` (edit_profile.dfy): the class `ProfileEditor`, with `updateField`, `toggleSection` and the avatar handlers.

Each method of the two classes states its new state as a function of the old state. Those
functions, in `Schedule`, `Validation` and `EditProfilePage`, carry the properties the page relies on.

Three facts about the page shape the model:
- The page has no edit that sets a date to an empty list. An "Unavailable" date can only
  come from the mentor record the page starts from, and the model has no such edit either.
- The page renders three branches for the selected date (pages/Availability.jsx:445-495).
  `Schedule.Resolve` returns them as `Unavailable`, `Overridden(slots)` or
  `Inherited(weekly slots)`.
- `removeDateSlot` on a key holding an empty list deletes the key. The page never offers that
  button for such a date, but the model keeps the code's behaviour.

## Model

| member | source | states |
|---|---|---|
| `Digits.DecimalString` | pages/Availability.jsx:46 | `n.toString()` is a non-empty digit string without leading zero whose value is n |
| `Digits.ZeroPad` | pages/Availability.jsx:46 | `padStart(width, '0')` yields a digit string of length max(length, width) with the same value |
| `Digits.DigitsValueInjective` | pages/Availability.jsx:46 | two digit strings of equal length and equal value are the same string, so a padded rendering is unique |
| `TimeCodec.SplitOnColon` | pages/Availability.jsx:25 | `split(':')` gives pieces free of ':' that, joined with ':', give back the text; there are at least two exactly when the text contains ':' |
| `TimeCodec.LeadingDigits` | pages/Availability.jsx:26 | `parseInt` reads the longest run of digits at the start of the hour text |
| `TimeCodec.ParseTime` | pages/Availability.jsx:23-34 | empty or absent input gives 9:00 AM; otherwise the hour lies in 1..12 and agrees with the 24-hour hour modulo 12; PM exactly when that hour is at least 12; the minute text passes through |
| `TimeCodec.FormatTime` | pages/Availability.jsx:37-48 | for hours 1..12: two digits of a 24-hour hour below 24, congruent to the hour modulo 12 and at least 12 exactly for PM, then ':' and the minute unchanged |
| `TimeCodec.FormatAfterParse` | pages/Availability.jsx:23-48 | every stored time HH:MM (HH in 00..23, minute without ':') is written back unchanged after being read |
| `TimeCodec.ParseAfterFormat` | pages/Availability.jsx:23-48 | every picker triple (hour 1..12, minute without ':', AM/PM) is read back unchanged after being written |
| `TimeCodec.TwelveHourTextMisread` | pages/Availability.jsx:23-34 | a 12-hour text "02:00 PM" reads as hour 2, minute "00 PM", AM: the suffix stays in the minute and the period comes from the hour alone |
| `TimeCodec.NoonAndMidnight` | pages/Availability.jsx:27-31 | "00:30" reads as 12:30 AM and "12:30" as 12:30 PM |
| `Calendar.DateKey` | pages/Availability.jsx:203-205 | the key is ten characters `YYYY-MM-DD` whose digit fields hold the year, month and day |
| `Calendar.ParseDateKeyInverse` | pages/Availability.jsx:203-205 | every key reads back as the date it was made from |
| `Calendar.FormatDateKey` | pages/Availability.jsx:203-205 | a moment's key has ten characters and reads back as the moment's local date |
| `Calendar.OnlyKeyOfDate` | pages/Availability.jsx:203-205 | the only text that reads as a date is that date's own key |
| `Calendar.Weekday` | pages/Availability.jsx:433 | the weekday of a local date; with `WeekdayNextDate` and `WeekdayAnchor` it is the Gregorian weekday of every date in years 1..9999 |
| `Calendar.WeekdayNextDate` | pages/Availability.jsx:433 | for every valid date whose next day is valid (all of years 1..9999), the next day's weekday is the one after this day's, across month, February and year ends |
| `Calendar.WeekdayAnchor` | pages/Availability.jsx:433 | 1 January 2024 is a Monday; with the step above this fixes every weekday |
| `Calendar.SameKeyIffSameDay` | pages/Availability.jsx:203-205 | two moments get the same key exactly when they fall on the same local day, whatever their times |
| `Schedule.WeeklySlot.With` | pages/Availability.jsx:198 | `slot[field] = value` sets that field, keeps the other field and the day |
| `Schedule.Slot.With` | pages/Availability.jsx:239 | `slot[field] = value` sets that field and keeps the other |
| `Schedule.Splice` | pages/Availability.jsx:192 | `splice(index, 1)` removes exactly element index, keeps the others in order and as a multiset; an index past the end changes nothing |
| `Schedule.SlotsForDay` | pages/Availability.jsx:336 | the filtered list holds exactly the slots of that day and no others |
| `Schedule.SlotsForDayCount` | pages/Availability.jsx:336 | the filter keeps every copy of a slot of that day and no slot of another day |
| `Schedule.SlotsForDayConcat` | pages/Availability.jsx:336 | filtering a list is filtering its two halves in turn, so slots stay in store order |
| `Schedule.SlotsForDayUnit` | pages/Availability.jsx:336 | no slot filters to nothing, one slot to itself exactly when it is on the day |
| `Schedule.SlotsForDayAppend` | pages/Availability.jsx:186-188 | an appended slot shows last among its day's slots; every other day's list is unchanged |
| `Schedule.SlotsForDayUpdate` | pages/Availability.jsx:196-200 | editing a time of a weekly slot leaves every day's slot count unchanged |
| `Schedule.AddSlot` | pages/Availability.jsx:212-220 | the key gains the default 09:00-17:00 slot at the end of its list (created when absent); other keys unchanged; no new empty list |
| `Schedule.RemoveSlot` | pages/Availability.jsx:222-234 | the key keeps the spliced list if non-empty and is deleted otherwise; other keys unchanged; no new empty list |
| `Schedule.UpdateSlot` | pages/Availability.jsx:236-245 | same keys and list length; only the chosen field of the chosen slot changes; other keys unchanged |
| `Schedule.ClearOverride` | pages/Availability.jsx:452-456 | the key is removed and every other entry stays |
| `Schedule.EditsCreateNoEmptyList` | pages/Availability.jsx:212-245 | after any sequence of override edits, every empty list was already there; a map without empty lists keeps having none |
| `Schedule.AddThenRemove` | pages/Availability.jsx:212-234 | adding an override slot and removing it restores the map, except that an "Unavailable" date then inherits |
| `Schedule.Resolve` | pages/Availability.jsx:445-495 | "Unavailable" iff the key maps to an empty list; override slots iff it maps to a non-empty list; otherwise the weekday's weekly slots |
| `Schedule.IsMarked` | pages/Availability.jsx:412-415 | a calendar tile is marked exactly when the override map holds a key that reads as its date |
| `Schedule.MarkedIffNotInherited` | pages/Availability.jsx:412-415 | a calendar tile is marked exactly when its date does not inherit the weekly schedule (even for an empty list) |
| `Schedule.RemoveLastSlotInherits` | pages/Availability.jsx:222-234 | removing the only override slot of a date makes it inherit its weekday's slots |
| `Schedule.AddThenEditTuesday` | pages/Availability.jsx:186-200 | a default Tuesday slot whose end is set to 13:00 is the whole schedule of a Tuesday with no override and no earlier Tuesday slot |
| `AvailabilityPage.AvailabilityEditor.constructor` | pages/Availability.jsx:171-175 | the slots and overrides come from the mentor record, or are empty when it has none |
| `AvailabilityPage.AvailabilityEditor.SelectDate` | pages/Availability.jsx:409 | the calendar selection becomes the given moment |
| `AvailabilityPage.AvailabilityEditor.AddWeeklySlot` | pages/Availability.jsx:186-188 | the list gains one default slot for the day at the end; only that day's filtered list grows |
| `AvailabilityPage.AvailabilityEditor.RemoveWeeklySlot` | pages/Availability.jsx:190-194 | the list becomes its splice at index |
| `AvailabilityPage.AvailabilityEditor.UpdateWeeklySlot` | pages/Availability.jsx:196-200 | same length; slot index gets the field set; all other slots unchanged; day counts unchanged |
| `AvailabilityPage.AvailabilityEditor.AddDateSlot` | pages/Availability.jsx:212-220 | the overrides become `AddSlot` at the selected date's key |
| `AvailabilityPage.AvailabilityEditor.RemoveDateSlot` | pages/Availability.jsx:222-234 | the overrides become `RemoveSlot` at the date's key |
| `AvailabilityPage.AvailabilityEditor.UpdateDateSlot` | pages/Availability.jsx:236-245 | the overrides become `UpdateSlot` at the date's key |
| `AvailabilityPage.AvailabilityEditor.ClearSelectedOverride` | pages/Availability.jsx:452-456 | the selected date's key is deleted |
| `Validation.Trim` | pages/EditProfile.jsx:209 | `trim()` yields the empty string exactly when every character is white space |
| `Validation.EmailAddressShape` | pages/EditProfile.jsx:202 | the e-mail scan accepts exactly a@b.c with a, b, c non-empty and free of white space and '@' |
| `Validation.UpiIdShape` | pages/EditProfile.jsx:212 | the UPI scan accepts exactly x@y with x, y non-empty over letters, digits, '_', '.', '-' |
| `Validation.ValidateField` | pages/EditProfile.jsx:199-216 | null gives ""; fields other than email/phone/name/upiId give ""; each of the four gives its message exactly when its rule fails, and "" otherwise |
| `EditProfilePage.AvatarGender` | pages/EditProfile.jsx:193-197 | the mentor's gender when it has an avatar, otherwise "Male"; always a key of the avatar table |
| `EditProfilePage.ProfileEditor.constructor` | pages/EditProfile.jsx:94-104 | no section open, no notice, no errors, colour b6e3f4 |
| `EditProfilePage.ProfileEditor.UpdateField` | pages/EditProfile.jsx:218-234 | a non-digit phone or account number changes nothing; otherwise the field and its message are stored and a cleared error is flagged; the phone error never becomes "Digits only" |
| `EditProfilePage.ProfileEditor.ToggleSection` | pages/EditProfile.jsx:241-248 | the open section closes (with the saved notice for 'slots'); any other section opens in its place |
| `EditProfilePage.ProfileEditor.HandleColorSelect` | pages/EditProfile.jsx:193-197 | keeps the colour and draws the avatar of `AvatarGender` in it |
| `EditProfilePage.ProfileEditor.HandleGenderSelect` | pages/EditProfile.jsx:188-191 | records the gender through `updateField`, draws its avatar, and later colour changes keep that gender |

## Left out

- Rendering: JSX, Tailwind class strings, animations, `getCardStyle`, `SmoothWrapper`, the components under `components/`, and the other pages (dashboard, sessions, company profile). None of them holds logic beyond display.
- Timers: the simulated save of the availability page (`handleSave`), notices that close themselves, and the reset of the success flag after one second. `UpdateField` sets the flag; its later reset is not modelled. `ToggleSection` raises the notice; its timed dismissal is not modelled.
- Browser APIs: the clipboard, object URLs for uploaded images, `window.location`, and the picker's outside-click listener.
- Time zones and locales: a moment is given directly as its local date and time of day. `Calendar.Weekday` computes the weekday by Sakamoto's method rather than through the browser.
- `Calendar.DateKey`: only years 1..9999 are covered, where the year has four digits or fewer.
- `TimeCodec.ParseTime`: it requires a non-empty input to contain ':' and to start its hour part with a digit. `parseInt` skips leading white space and reads a sign, and returns NaN without a digit; a missing ':' leaves the minute undefined. Those inputs are not modelled.
- `TimeCodec.FormatTime`: its promises are stated for hours 1..12, the only hours the picker and `parseTime` produce.
- `TimeCodec.ParseTime`: hours beyond 2^53, which JavaScript numbers cannot hold exactly, are not modelled.
- Aliasing: `updateWeeklySlot` and `updateDateSlot` copy the array but then change the shared slot object. The previous state, and the mentor record it came from, therefore change too. The model updates by value, so that shared change is not captured.
- `AvailabilityPage.AvailabilityEditor.UpdateWeeklySlot`, `AvailabilityPage.AvailabilityEditor.UpdateDateSlot`: both require an existing slot. The code throws on a missing one.
- `AvailabilityPage.AvailabilityEditor.RemoveWeeklySlot`, `AvailabilityPage.AvailabilityEditor.RemoveDateSlot`: a negative index, which `splice` counts from the end, is not modelled. The page only passes indices of existing slots.
- The page finds a displayed weekly slot's index with `indexOf`, which compares objects by identity. Values have no identity, so that lookup is not modelled.
- Weekday names: a slot's day is the `Day` datatype. The page uses the strings 'Monday'..'Sunday', and a record holding another string would match no day.
- `EditProfilePage.AvatarGender`: the avatar table is an object, so an inherited property name such as "constructor" would pass its lookup. That case is not modelled.
- `EditProfilePage.ProfileEditor.HandleGenderSelect`: it requires one of the four genders the page offers. For any other gender the code would draw an undefined picture.
- The effects that copy slots between the profile page and the shared mentor context, and the default slots of the profile page, are not modelled. Those defaults use a 12-hour "10:00 AM" format, which the codec misreads: `TimeCodec.TwelveHourTextMisread` shows "02:00 PM" read as hour 2, minute "00 PM", AM.
- White space is the ECMAScript set of white-space and line-terminator characters. Strings are sequences of Unicode scalar values, not UTF-16 code units. This makes no difference to the four patterns.

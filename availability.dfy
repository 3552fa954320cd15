/**
 * The state of the availability page (pages/Availability.jsx): the weekly
 * slots, the date overrides and the selected calendar date, edited in place
 * by the page's handlers.
 */
module AvailabilityPage {
  import opened Wrappers
  import opened Calendar
  import opened Schedule

  class AvailabilityEditor {
    var weeklySlots: seq<WeeklySlot>
    var dateSpecificSlots: Overrides
    var selectedDate: LocalDateTime

    ghost predicate Valid()
      reads this
    {
      ValidDate(selectedDate.date)
    }

    /** Seeded from the mentor record (`mentor?.availability || []`, `mentor?.dateAvailability || {}`). */
    constructor (availability: Option<seq<WeeklySlot>>, dateAvailability: Option<Overrides>, now: LocalDateTime)
      requires ValidDate(now.date)
      ensures Valid()
      ensures weeklySlots == (if availability.Some? then availability.value else [])
      ensures dateSpecificSlots == (if dateAvailability.Some? then dateAvailability.value else map[])
      ensures selectedDate == now
    {
      weeklySlots := if availability.Some? then availability.value else [];
      dateSpecificSlots := if dateAvailability.Some? then dateAvailability.value else map[];
      selectedDate := now;
    }

    /** The calendar's `onChange`. */
    method SelectDate(moment: LocalDateTime)
      requires ValidDate(moment.date)
      modifies this`selectedDate
      ensures Valid() && selectedDate == moment
    {
      selectedDate := moment;
    }

    /** `addWeeklySlot`: one default slot for day, at the end. */
    method AddWeeklySlot(day: Day)
      requires Valid()
      modifies this`weeklySlots
      ensures Valid()
      ensures weeklySlots == old(weeklySlots) + [DefaultWeeklySlot(day)]
      ensures forall d :: SlotsForDay(weeklySlots, d)
                == SlotsForDay(old(weeklySlots), d) + (if d == day then [DefaultWeeklySlot(day)] else [])
    {
      weeklySlots := weeklySlots + [DefaultWeeklySlot(day)];
      forall d {
        SlotsForDayAppend(old(weeklySlots), DefaultWeeklySlot(day), d);
      }
    }

    /** `removeWeeklySlot`: splice out slot index; an index past the end changes nothing. */
    method RemoveWeeklySlot(index: nat)
      requires Valid()
      modifies this`weeklySlots
      ensures Valid()
      ensures weeklySlots == Splice(old(weeklySlots), index)
    {
      var newSlots := weeklySlots;
      if index < |newSlots| {
        newSlots := newSlots[..index] + newSlots[index + 1..];
      }
      weeklySlots := newSlots;
    }

    /** `updateWeeklySlot`: set one time field of slot index. */
    method UpdateWeeklySlot(index: nat, field: TimeField, value: string)
      requires index < |weeklySlots|
      requires Valid()
      modifies this`weeklySlots
      ensures Valid()
      ensures |weeklySlots| == |old(weeklySlots)|
      ensures weeklySlots[index] == old(weeklySlots)[index].With(field, value)
      ensures forall i :: 0 <= i < |weeklySlots| && i != index ==> weeklySlots[i] == old(weeklySlots)[i]
      ensures forall d :: |SlotsForDay(weeklySlots, d)| == |SlotsForDay(old(weeklySlots), d)|
    {
      var newSlots := weeklySlots;
      newSlots := newSlots[index := newSlots[index].With(field, value)];
      weeklySlots := newSlots;
      forall d {
        SlotsForDayUpdate(old(weeklySlots), index, field, value, d);
      }
    }

    /** `addDateSlot`: append the default slot to the selected date's override. */
    method AddDateSlot()
      requires Valid()
      modifies this`dateSpecificSlots
      ensures Valid()
      ensures dateSpecificSlots == AddSlot(old(dateSpecificSlots), FormatDateKey(selectedDate))
    {
      var key := FormatDateKey(selectedDate);
      var currentSlots := if key in dateSpecificSlots then dateSpecificSlots[key] else [];
      assert currentSlots == SlotsAt(dateSpecificSlots, key);
      var newSlots := dateSpecificSlots;
      newSlots := newSlots[key := currentSlots + [DefaultSlot]];
      assert newSlots == AddSlot(dateSpecificSlots, key);
      dateSpecificSlots := newSlots;
    }

    /** `removeDateSlot`: splice out one override slot, deleting the key once its list is empty. */
    method RemoveDateSlot(moment: LocalDateTime, index: nat)
      requires ValidDate(moment.date)
      requires Valid()
      modifies this`dateSpecificSlots
      ensures Valid()
      ensures dateSpecificSlots == RemoveSlot(old(dateSpecificSlots), FormatDateKey(moment), index)
    {
      var key := FormatDateKey(moment);
      var currentSlots := if key in dateSpecificSlots then dateSpecificSlots[key] else [];
      assert currentSlots == SlotsAt(dateSpecificSlots, key);
      if index < |currentSlots| {
        currentSlots := currentSlots[..index] + currentSlots[index + 1..];
      }
      assert currentSlots == Splice(SlotsAt(dateSpecificSlots, key), index);
      var newSlots := dateSpecificSlots;
      if |currentSlots| == 0 {
        newSlots := newSlots - {key};
      } else {
        newSlots := newSlots[key := currentSlots];
      }
      assert newSlots == RemoveSlot(dateSpecificSlots, key, index);
      dateSpecificSlots := newSlots;
    }

    /** `updateDateSlot`: set one time field of one override slot. */
    method UpdateDateSlot(moment: LocalDateTime, index: nat, field: TimeField, value: string)
      requires ValidDate(moment.date)
      requires FormatDateKey(moment) in dateSpecificSlots
      requires index < |dateSpecificSlots[FormatDateKey(moment)]|
      requires Valid()
      modifies this`dateSpecificSlots
      ensures Valid()
      ensures dateSpecificSlots == UpdateSlot(old(dateSpecificSlots), FormatDateKey(moment), index, field, value)
    {
      var key := FormatDateKey(moment);
      var currentSlots := dateSpecificSlots[key];
      currentSlots := currentSlots[index := currentSlots[index].With(field, value)];
      dateSpecificSlots := dateSpecificSlots[key := currentSlots];
    }

    /** The "Clear override" button of an unavailable date: delete its key. */
    method ClearSelectedOverride()
      requires Valid()
      modifies this`dateSpecificSlots
      ensures Valid()
      ensures dateSpecificSlots == ClearOverride(old(dateSpecificSlots), FormatDateKey(selectedDate))
    {
      var newSlots := dateSpecificSlots;
      newSlots := newSlots - {FormatDateKey(selectedDate)};
      dateSpecificSlots := newSlots;
    }
  }
}

/**
 * The availability data of pages/Availability.jsx as values: the weekly
 * recurring slots, the per-date override map, the edits on each, and how the
 * page resolves what a date offers.
 */
module Schedule {
  import opened Wrappers
  import opened Calendar

  /** The two editable fields of a slot (`'startTime'`, `'endTime'`). */
  datatype TimeField = StartTime | EndTime {
    function Other(): TimeField {
      if this == StartTime then EndTime else StartTime
    }
  }

  /** A recurring slot: a weekday and a "HH:MM" window. */
  datatype WeeklySlot = WeeklySlot(day: Day, startTime: string, endTime: string) {
    function Time(field: TimeField): string {
      if field == StartTime then startTime else endTime
    }

    /** `slot[field] = value`. */
    function With(field: TimeField, value: string): (r: WeeklySlot)
      ensures r.day == day
      ensures r.Time(field) == value
      ensures r.Time(field.Other()) == Time(field.Other())
    {
      if field == StartTime then this.(startTime := value) else this.(endTime := value)
    }
  }

  /** A slot of a date override: a "HH:MM" window. */
  datatype Slot = Slot(startTime: string, endTime: string) {
    function Time(field: TimeField): string {
      if field == StartTime then startTime else endTime
    }

    /** `slot[field] = value`. */
    function With(field: TimeField, value: string): (r: Slot)
      ensures r.Time(field) == value
      ensures r.Time(field.Other()) == Time(field.Other())
    {
      if field == StartTime then this.(startTime := value) else this.(endTime := value)
    }
  }

  /** Date overrides, keyed by "YYYY-MM-DD". */
  type Overrides = map<string, seq<Slot>>

  /** The window every new slot starts with. */
  const DefaultStart := "09:00"
  const DefaultEnd := "17:00"
  const DefaultSlot := Slot(DefaultStart, DefaultEnd)

  function DefaultWeeklySlot(day: Day): WeeklySlot {
    WeeklySlot(day, DefaultStart, DefaultEnd)
  }

  // ---------------------------------------------------------------------------
  // Weekly slots

  /** `s.splice(index, 1)` for an index that is not negative. */
  function Splice<T>(s: seq<T>, index: nat): (r: seq<T>)
    ensures index >= |s| ==> r == s
    ensures index < |s| ==>
              && |r| == |s| - 1
              && (forall k :: 0 <= k < index ==> r[k] == s[k])
              && (forall k :: index <= k < |r| ==> r[k] == s[k + 1])
              && multiset(r) + multiset{s[index]} == multiset(s)
  {
    if index < |s| then
      assert s == s[..index] + [s[index]] + s[index + 1..];
      s[..index] + s[index + 1..]
    else s
  }

  /** `weeklySlots.filter(s => s.day === day)`: a day's slots in store order. */
  function SlotsForDay(weekly: seq<WeeklySlot>, day: Day): (r: seq<WeeklySlot>)
    ensures |r| <= |weekly|
    ensures forall k :: 0 <= k < |r| ==> r[k].day == day
    ensures forall s :: s in r <==> s in weekly && s.day == day
  {
    if weekly == [] then []
    else (if weekly[0].day == day then [weekly[0]] else []) + SlotsForDay(weekly[1..], day)
  }

  /** The filter keeps every copy of a slot of that day and no slot of another day. */
  lemma {:induction false} SlotsForDayCount(weekly: seq<WeeklySlot>, day: Day)
    ensures forall s :: multiset(SlotsForDay(weekly, day))[s]
                        == if s.day == day then multiset(weekly)[s] else 0
  {
    if weekly != [] {
      assert weekly == [weekly[0]] + weekly[1..];
      SlotsForDayCount(weekly[1..], day);
    }
  }

  /**
   * Filtering a list is filtering its two halves one after the other; with
   * the empty and the one-slot cases (`SlotsForDayUnit`) this fixes the
   * result's order: store order.
   */
  lemma {:induction false} SlotsForDayConcat(a: seq<WeeklySlot>, b: seq<WeeklySlot>, day: Day)
    ensures SlotsForDay(a + b, day) == SlotsForDay(a, day) + SlotsForDay(b, day)
    decreases |b|
  {
    if b == [] {
      assert a + b == a;
      assert SlotsForDay(b, day) == [];
    } else {
      var init, last := b[..|b| - 1], b[|b| - 1];
      var extra := if last.day == day then [last] else [];
      assert b == init + [last];
      assert a + b == (a + init) + [last];
      SlotsForDayConcat(a, init, day);
      SlotsForDayAppend(a + init, last, day);
      SlotsForDayAppend(init, last, day);
      var front, middle := SlotsForDay(a, day), SlotsForDay(init, day);
      ConcatAssociative(front, middle, extra);
    }
  }

  lemma ConcatAssociative<T>(x: seq<T>, y: seq<T>, z: seq<T>)
    ensures (x + y) + z == x + (y + z)
  {
  }

  /** The filter of no slot is empty, and of one slot is that slot exactly when it is on the day. */
  lemma SlotsForDayUnit(s: WeeklySlot, day: Day)
    ensures SlotsForDay([], day) == []
    ensures SlotsForDay([s], day) == if s.day == day then [s] else []
  {
    assert [s][1..] == [];
  }

  /** Appending a slot shows it last among its own day and leaves every other day as it was. */
  lemma {:induction false} SlotsForDayAppend(weekly: seq<WeeklySlot>, slot: WeeklySlot, day: Day)
    ensures SlotsForDay(weekly + [slot], day)
            == SlotsForDay(weekly, day) + (if slot.day == day then [slot] else [])
  {
    if weekly == [] {
      assert weekly + [slot] == [slot];
    } else {
      assert (weekly + [slot])[1..] == weekly[1..] + [slot];
      SlotsForDayAppend(weekly[1..], slot, day);
    }
  }

  /** Editing a time of a weekly slot never moves it to another day. */
  lemma {:induction false} SlotsForDayUpdate(weekly: seq<WeeklySlot>, index: nat, field: TimeField, value: string, day: Day)
    requires index < |weekly|
    ensures |SlotsForDay(weekly[index := weekly[index].With(field, value)], day)| == |SlotsForDay(weekly, day)|
  {
    var updated := weekly[index := weekly[index].With(field, value)];
    if index > 0 {
      assert updated[1..] == weekly[1..][index - 1 := weekly[index].With(field, value)];
      SlotsForDayUpdate(weekly[1..], index - 1, field, value, day);
    } else {
      assert updated[1..] == weekly[1..];
    }
  }

  // ---------------------------------------------------------------------------
  // Date overrides

  /** `dateSpecificSlots[key] || []` (an empty list is truthy in JavaScript). */
  function SlotsAt(m: Overrides, key: string): seq<Slot> {
    if key in m then m[key] else []
  }

  /** No key holds an empty list: no date is explicitly marked unavailable. */
  predicate NoEmptyLists(m: Overrides) {
    forall k :: k in m ==> m[k] != []
  }

  /** `addDateSlot`: append the default slot under key, creating the key when absent. */
  function AddSlot(m: Overrides, key: string): (r: Overrides)
    ensures r.Keys == m.Keys + {key}
    ensures r[key] == SlotsAt(m, key) + [DefaultSlot]
    ensures forall k :: k in m && k != key ==> r[k] == m[k]
    ensures forall k :: k in r && r[k] == [] ==> k in m && m[k] == []
  {
    m[key := SlotsAt(m, key) + [DefaultSlot]]
  }

  /**
   * `removeDateSlot`: splice slot index out of key's list; when the list
   * becomes empty the key itself is deleted, so the date inherits again.
   */
  function RemoveSlot(m: Overrides, key: string, index: nat): (r: Overrides)
    ensures key in r <==> Splice(SlotsAt(m, key), index) != []
    ensures key in r ==> r[key] == Splice(SlotsAt(m, key), index)
    ensures r.Keys - {key} == m.Keys - {key}
    ensures forall k :: k in m && k != key ==> k in r && r[k] == m[k]
    ensures forall k :: k in r && r[k] == [] ==> k in m && m[k] == []
  {
    var rest := Splice(SlotsAt(m, key), index);
    if rest == [] then m - {key} else m[key := rest]
  }

  /** `updateDateSlot`: set one field of one slot of key's list. */
  function UpdateSlot(m: Overrides, key: string, index: nat, field: TimeField, value: string): (r: Overrides)
    requires key in m && index < |m[key]|
    ensures r.Keys == m.Keys
    ensures |r[key]| == |m[key]|
    ensures r[key][index] == m[key][index].With(field, value)
    ensures forall i :: 0 <= i < |m[key]| && i != index ==> r[key][i] == m[key][i]
    ensures forall k :: k in m && k != key ==> r[k] == m[k]
    ensures forall k :: k in r && r[k] == [] ==> k in m && m[k] == []
  {
    m[key := m[key][index := m[key][index].With(field, value)]]
  }

  /** "Clear override": delete the key, so the date inherits the weekly schedule again. */
  function ClearOverride(m: Overrides, key: string): (r: Overrides)
    ensures key !in r
    ensures r.Keys == m.Keys - {key}
    ensures forall k :: k in r ==> r[k] == m[k]
  {
    m - {key}
  }

  /** One edit of the override map, as the page's handlers perform them. */
  datatype OverrideEdit =
    | AddTo(key: string)
    | RemoveFrom(key: string, index: nat)
    | UpdateIn(key: string, index: nat, field: TimeField, value: string)
    | Clear(key: string)

  /** The map after one edit; None where the handler would throw (an update of a missing slot). */
  function Apply(m: Overrides, edit: OverrideEdit): Option<Overrides> {
    match edit
    case AddTo(key) => Some(AddSlot(m, key))
    case RemoveFrom(key, index) => Some(RemoveSlot(m, key, index))
    case UpdateIn(key, index, field, value) =>
      if key in m && index < |m[key]| then Some(UpdateSlot(m, key, index, field, value)) else None
    case Clear(key) => Some(ClearOverride(m, key))
  }

  function ApplyAll(m: Overrides, edits: seq<OverrideEdit>): Option<Overrides>
    decreases |edits|
  {
    if edits == [] then Some(m)
    else
      match Apply(m, edits[0])
      case None => None
      case Some(m') => ApplyAll(m', edits[1..])
  }

  /**
   * No sequence of edits creates an empty list: every key that ends up
   * explicitly unavailable was so from the start. Hence a map without empty
   * lists keeps having none.
   */
  lemma {:induction false} EditsCreateNoEmptyList(m: Overrides, edits: seq<OverrideEdit>)
    ensures ApplyAll(m, edits).Some? ==>
              forall k :: k in ApplyAll(m, edits).value && ApplyAll(m, edits).value[k] == [] ==>
                k in m && m[k] == []
    ensures NoEmptyLists(m) && ApplyAll(m, edits).Some? ==> NoEmptyLists(ApplyAll(m, edits).value)
    decreases |edits|
  {
    if edits != [] {
      match Apply(m, edits[0])
      case None =>
      case Some(m') =>
        EditsCreateNoEmptyList(m', edits[1..]);
    }
  }

  /**
   * Adding an override slot and removing it again restores the map, except
   * that a date that was explicitly unavailable now inherits the weekly schedule.
   */
  lemma AddThenRemove(m: Overrides, key: string)
    ensures RemoveSlot(AddSlot(m, key), key, |SlotsAt(m, key)|)
            == if key in m && m[key] == [] then m - {key} else m
  {
    var before := SlotsAt(m, key);
    var added := AddSlot(m, key);
    assert SlotsAt(added, key) == before + [DefaultSlot];
    assert Splice(before + [DefaultSlot], |before|) == before by {
      assert (before + [DefaultSlot])[..|before|] == before;
    }
    var r := RemoveSlot(added, key, |before|);
    if before == [] {
      assert r == m - {key};
    } else {
      assert r == added[key := before];
    }
  }

  // ---------------------------------------------------------------------------
  // What a date offers

  /** The three outcomes the page renders for a date. */
  datatype Effective =
    | Unavailable                             // key present with an empty list
    | Overridden(slots: seq<Slot>)            // key present with slots
    | Inherited(weekly: seq<WeeklySlot>)      // key absent: the weekday's weekly slots

  /** The render branches for the selected date, and the weekly list they fall back to. */
  function Resolve(weekly: seq<WeeklySlot>, m: Overrides, moment: LocalDateTime): (e: Effective)
    requires ValidDate(moment.date)
    ensures var key := FormatDateKey(moment);
            && (e.Unavailable? <==> key in m && m[key] == [])
            && (e.Overridden? <==> key in m && m[key] != [])
            && (e.Overridden? ==> e.slots == m[key])
            && (e.Inherited? <==> key !in m)
            && (e.Inherited? ==> e.weekly == SlotsForDay(weekly, Weekday(moment.date)))
  {
    var key := FormatDateKey(moment);
    if key in m && |m[key]| == 0 then Unavailable
    else if |SlotsAt(m, key)| > 0 then Overridden(SlotsAt(m, key))
    else Inherited(SlotsForDay(weekly, Weekday(moment.date)))
  }

  /** The calendar's `has-slots` mark: any entry for the day, even an empty one. */
  function IsMarked(m: Overrides, moment: LocalDateTime): (marked: bool)
    requires ValidDate(moment.date)
    ensures marked <==> exists key :: key in m && ParseDateKey(key) == Some(moment.date)
  {
    forall key | key in m && ParseDateKey(key) == Some(moment.date) ensures key == FormatDateKey(moment) {
      OnlyKeyOfDate(key, moment.date);
    }
    FormatDateKey(moment) in m
  }

  /** A calendar tile is marked exactly when the day does not inherit the weekly schedule. */
  lemma MarkedIffNotInherited(weekly: seq<WeeklySlot>, m: Overrides, moment: LocalDateTime)
    requires ValidDate(moment.date)
    ensures IsMarked(m, moment) <==> !Resolve(weekly, m, moment).Inherited?
  {
  }

  /** Removing the only slot of an override makes the date inherit its weekday's slots. */
  lemma RemoveLastSlotInherits(weekly: seq<WeeklySlot>, m: Overrides, moment: LocalDateTime)
    requires ValidDate(moment.date)
    requires FormatDateKey(moment) in m && |m[FormatDateKey(moment)]| == 1
    ensures Resolve(weekly, RemoveSlot(m, FormatDateKey(moment), 0), moment)
            == Inherited(SlotsForDay(weekly, Weekday(moment.date)))
  {
  }

  /**
   * A Tuesday slot added with the default window and then given the end time
   * "13:00" is the whole schedule of a Tuesday that has no override and had no
   * weekly slot before.
   */
  lemma {:induction false} AddThenEditTuesday(weekly: seq<WeeklySlot>, m: Overrides, moment: LocalDateTime)
    requires ValidDate(moment.date) && Weekday(moment.date) == Tuesday
    requires FormatDateKey(moment) !in m
    requires SlotsForDay(weekly, Tuesday) == []
    ensures var added := weekly + [DefaultWeeklySlot(Tuesday)];
            var edited := added[|weekly| := added[|weekly|].With(EndTime, "13:00")];
            Resolve(edited, m, moment) == Inherited([WeeklySlot(Tuesday, "09:00", "13:00")])
  {
    var edited := weekly + [WeeklySlot(Tuesday, "09:00", "13:00")];
    assert (weekly + [DefaultWeeklySlot(Tuesday)])[|weekly| := WeeklySlot(Tuesday, "09:00", "13:00")] == edited;
    SlotsForDayAppend(weekly, WeeklySlot(Tuesday, "09:00", "13:00"), Tuesday);
  }
}

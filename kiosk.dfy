/** The kiosk script itself (kiosk/js/kiosk.js): its module globals become the fields of one
    object, and `cos_set_current`, `cos_clock_callback` and `cos_loaded` its methods. */
module KioskScript {
  import opened Wrappers
  import opened Digits
  import opened Search
  import opened WeekClock
  import opened SlotIndex
  import opened Resolver

  /** The page the script runs on: the ids of its elements, and the ids of the elements of
      class `schedRowTimeSlot` in document order. */
  datatype Page = Page(ids: set<string>, slotRowIds: seq<string>)

  /** The element id of the clock display. */
  const ClockId := "current_time"

  class Kiosk {
    const page: Page
    /** cos_clock != null */
    var clockFound: bool
    /** The text last written into the clock display, if any. */
    var clockText: Option<string>
    /** cos_time_slots */
    var slots: seq<int>
    /** cos_prior_time, cos_active_time, cos_next_time */
    var prior: Option<int>
    var active: Option<int>
    var next: Option<int>
    /** cos_active_row, cos_active_desc, by element id */
    var activeRow: Option<string>
    var activeDesc: Option<string>
    /** Every change made to the page's rows, in order. */
    ghost var events: seq<DomEvent>

    /** The slot index is kept ascending. */
    ghost predicate Valid()
      reads this
    {
      Sorted(slots)
    }

    /** The resolver's part of the globals. */
    function Current(): State
      reads this
    {
      State(prior, active, next, activeRow, activeDesc)
    }

    /** The globals as the script declares them (kiosk/js/kiosk.js:7-14). */
    constructor (p: Page)
      ensures Valid()
      ensures page == p && slots == [] && Current() == Unset
      ensures !clockFound && clockText == None && events == []
    {
      page := p;
      clockFound := false;
      clockText := None;
      slots := [];
      prior, active, next := None, None, None;
      activeRow, activeDesc := None, None;
      events := [];
    }

    /** `cos_set_current(t)`: unless the guard holds, search the slots, set the three slot
        times, move the highlight from the old row and description to the new ones and
        scroll to the prior slot's row. */
    method SetCurrent(t: int)
      requires Valid()
      modifies this`prior, this`active, this`next, this`activeRow, this`activeDesc, this`events
      ensures Current() == Step(page.ids, slots, old(Current()), t).state
      ensures events == old(events) + Step(page.ids, slots, old(Current()), t).events
    {
      if prior.Some? && (active.None? || t < NullAsZero(next)) {
        return;
      }
      Recompute(t);
    }

    /** The part of `cos_set_current` after the guard (kiosk/js/kiosk.js:57-81). */
    method Recompute(t: int)
      requires Valid()
      modifies this`prior, this`active, this`next, this`activeRow, this`activeDesc, this`events
      ensures Current() == Recomputed(page.ids, slots, t)
      ensures events == old(events) + TransitionEvents(page.ids, old(Current()), Current())
    {
      ghost var before := Current();
      ghost var r := Recomputed(page.ids, slots, t);
      SetTimes(t);
      ghost var off := events;
      SwitchOff();
      FindActive();
      assert Current() == r;
      ghost var on := events;
      SwitchOn();
      ghost var scroll := events;
      ScrollToPrior();
      ghost var after := Current();
      calc {
        events;
        scroll + ScrollEvents(page.ids, after);
        on + OnEvents(after) + ScrollEvents(page.ids, after);
        off + OffEvents(before) + OnEvents(after) + ScrollEvents(page.ids, after);
        { AppendThree(off, OffEvents(before), OnEvents(after), ScrollEvents(page.ids, after)); }
        off + TransitionEvents(page.ids, before, after);
      }
    }

    /** The search and the three slot times it sets (kiosk/js/kiosk.js:57-62). */
    method SetTimes(t: int)
      requires Valid()
      modifies this`prior, this`active, this`next
      ensures var r := Recomputed(page.ids, slots, t);
        prior == r.prior && active == r.active && next == r.next
    {
      var idx := LowerBound(slots, t);
      prior := SlotAt(slots, if idx < 4 then 0 else idx - 4);
      active := SlotAt(slots, if idx < 1 then 0 else idx - 1);
      next := if idx < |slots| then Some(slots[idx]) else None;
    }

    /** Finds the row and the description of the active time (kiosk/js/kiosk.js:70-71). */
    method FindActive()
      modifies this`activeRow, this`activeDesc
      ensures activeRow == Lookup(page.ids, RowId(active))
      ensures activeDesc == Lookup(page.ids, DescId(active))
    {
      activeRow := Lookup(page.ids, RowId(active));
      activeDesc := Lookup(page.ids, DescId(active));
    }

    /** Takes the highlight off the active row and shows the active description as
        inactive (kiosk/js/kiosk.js:64-69). */
    method SwitchOff()
      modifies this`events
      ensures events == old(events) + OffEvents(Current())
    {
      if activeRow.Some? {
        events := events + [RowOff(activeRow.value)];
      }
      if activeDesc.Some? {
        events := events + [DescOff(activeDesc.value)];
      }
    }

    /** Highlights the active row and shows its description (kiosk/js/kiosk.js:72-77). */
    method SwitchOn()
      modifies this`events
      ensures events == old(events) + OnEvents(Current())
    {
      if activeRow.Some? {
        events := events + [RowOn(activeRow.value)];
      }
      if activeDesc.Some? {
        events := events + [DescOn(activeDesc.value)];
      }
    }

    /** Scrolls the prior slot's row into view (kiosk/js/kiosk.js:78-81). */
    method ScrollToPrior()
      modifies this`events
      ensures events == old(events) + ScrollEvents(page.ids, Current())
    {
      var scrollRow := Lookup(page.ids, RowId(prior));
      if scrollRow.Some? {
        events := events + [ScrollTo(scrollRow.value)];
      }
    }

    /** `cos_clock_callback` at the given calendar day (Sunday is 0), hour, minute and
        second: resolve the slot for the minute of the week, then show the clock text. */
    method ClockTick(day: nat, hour: nat, minute: nat, second: nat)
      requires Valid()
      requires day < 7 && hour < 24 && minute < 60 && second < 60
      modifies this
      ensures Valid() && slots == old(slots) && clockFound == old(clockFound)
      ensures Current() == Step(page.ids, slots, old(Current()), WeekMinute(day, hour, minute)).state
      ensures events
        == old(events) + Step(page.ids, slots, old(Current()), WeekMinute(day, hour, minute)).events
      ensures clockText
        == if clockFound then Some(ClockText(day, hour, minute, second)) else old(clockText)
    {
      var text := ClockText(day, hour, minute, second);
      SetCurrent(WeekMinute(day, hour, minute));
      if clockFound {
        clockText := Some(text);
      }
    }

    /** The part of `cos_loaded` before the first tick: find the clock, clear the three slot
        times, and collect and sort the slots (kiosk/js/kiosk.js:113-135). */
    method LoadSlots()
      requires DigitTokens(page.slotRowIds)
      modifies this
      ensures Valid()
      ensures multiset(slots) == multiset(SlotValues(page.slotRowIds))
      ensures clockFound == (ClockId in page.ids) && clockText == old(clockText)
      ensures Current() == State(None, None, None, old(activeRow), old(activeDesc))
      ensures events == old(events)
    {
      clockFound := ClockId in page.ids;
      prior, active, next := None, None, None;
      slots := CollectSlots(page.slotRowIds);
      slots := SortAscending(slots);
    }

    /** `cos_loaded`: find the clock, clear the slot times, collect the number after the last
        underscore of every time-slot row's id, sort them, and run the first tick. */
    method Load(day: nat, hour: nat, minute: nat, second: nat)
      requires DigitTokens(page.slotRowIds)
      requires day < 7 && hour < 24 && minute < 60 && second < 60
      modifies this
      ensures Valid()
      ensures multiset(slots) == multiset(SlotValues(page.slotRowIds))
      ensures clockFound == (ClockId in page.ids)
      ensures var cleared := State(None, None, None, old(activeRow), old(activeDesc));
        && Current() == Step(page.ids, slots, cleared, WeekMinute(day, hour, minute)).state
        && events == old(events) + Step(page.ids, slots, cleared, WeekMinute(day, hour, minute)).events
      ensures clockText
        == if clockFound then Some(ClockText(day, hour, minute, second)) else old(clockText)
    {
      LoadSlots();
      ClockTick(day, hour, minute, second);
    }
  }
}

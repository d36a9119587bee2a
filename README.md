# Kiosk schedule display, modelled in Dafny

`kiosk/js/kiosk.js` drives a schedule shown on a kiosk screen. Each row of the schedule has
an element id that ends in `_<minute>`. The minute counts from Friday 00:00, because the
kiosk's week starts on Friday.

Once a second, the script turns the wall clock into the minute of that week. It then uses a
binary search over the sorted row minutes to pick:

- the **active** slot: the latest slot that starts strictly before the current minute, or
  the first slot when none does;
- the **next** slot: the first slot that starts at or after the current minute.

In the minute a slot starts, the slot before it is therefore still active, and before the
first slot starts, the first slot is already active; "## Findings" compares this with the
evidently intended choice. The script also picks:

- the **prior** slot, three slots before the active one, which it scrolls into view.

It highlights the active row and its description, and writes the time as text such as
`FRIDAY 9:05:07 AM` into the clock display.

The model has seven modules, one file each:

| module | file | what it models |
|---|---|---|
| `Search` | search.dfy | `binarySearch`, `lowerBound` and `upperBound` |
| `Digits` | digits.dfy | how JavaScript writes integers as decimal text and reads digit strings back (`'' + n`, `1 * s`) |
| `WeekClock` | week_clock.dfy | the week-minute arithmetic and the clock text of `cos_clock_callback` |
| `SlotIndex` | slot_index.dfy | the slot index `cos_loaded` builds from the row ids |
| `Resolver` | resolver.dfy | `cos_set_current` |
| `KioskScript` | kiosk.dfy | the script itself |
| `Wrappers` | wrappers.dfy | `Option` |

Notes on the modules:

- **Search.** `binarySearch` is a method with a loop. Linear scans `LowerIndex` and
  `UpperIndex` serve as reference definitions for the two wrappers.
- **Resolver.** `cos_set_current` is a step function over the five globals it reads and
  writes, plus the page changes it makes.
- **KioskScript.** The script's globals are the fields of one class, `Kiosk`. Its methods
  are `cos_set_current`, `cos_clock_callback` and `cos_loaded`. Each method's contract ties
  the new fields to the `Resolver` step function. A ghost log records every class change
  and scroll made on the page.

The page is a `Page` value: the set of element ids that `document.getElementById` can find,
and the ids of the time-slot rows in document order.

- **Element lookup.** Looking up an id yields the element exactly when the id is in the set
  (`Resolver.Lookup`).
- **Unset times.** `null` and `undefined` slot times are both `None`. Indexing past the end
  of the slots gives `None`, as `slots[k]` gives `undefined` (`Resolver.SlotAt`).
- **Meridiem.** `WeekClock.Meridiem` is the `AM`/`PM` choice of the clock, `AM` before noon.
- **Unset times in ids.** A `None` time concatenated into an id gives the text `undefined`,
  for example `sched_id_undefined`.
- **Unset next time.** In the comparison `t < next`, a `None` next time counts as 0, as
  JavaScript coerces `null`.

## Model

| member | source | states |
|---|---|---|
| Search.BinarySearch | kiosk/js/kiosk.js:17-32 | returns `0 <= i <= |a|` with `pred` false just before `i` and true at `i` (the doc comment's promise), for any predicate; for a false-then-true predicate, `pred` is false at every index below `i` and true at every index from `i` on |
| Search.LowerBound | kiosk/js/kiosk.js:34-39 | `a[i-1] < x <= a[i]` on any array; on an ascending array, `i` is the first index whose element is `>= x` (equal to the linear scan), and every later element is `>= x` |
| Search.UpperBound | kiosk/js/kiosk.js:41-46 | `a[i-1] <= x < a[i]` on any array; on an ascending array, `i` is the first index whose element is `> x`, and every later element is `> x` |
| Search.LowerIndexMonotone | kiosk/js/kiosk.js:37-39 | lowerBound's index never decreases as the searched value grows |
| Search.BoundsBracketEqualRun | kiosk/js/kiosk.js:34-46 | on an ascending array, lowerBound <= upperBound, every element between them equals `x`, and the two agree exactly when `x` is absent |
| Digits.Decimal | kiosk/js/kiosk.js:93-94 | `'' + n` gives a canonical digit string (no leading zero), one digit exactly for `n < 10`, at most two below 100 |
| Digits.DecimalRoundTrip | kiosk/js/kiosk.js:93-94 | reading back the text of a number gives the number |
| Digits.CanonicalRoundTrip | kiosk/js/kiosk.js:130 | a canonical digit string is the text of the number it denotes |
| Digits.CanonicalInjective | kiosk/js/kiosk.js:130 | two canonical digit strings denote the same number only when they are equal |
| Digits.Pad2 | kiosk/js/kiosk.js:95-96 | minutes and seconds are always exactly two digits and read back as themselves |
| WeekClock.RelDay | kiosk/js/kiosk.js:103 | `relDay` is in 0..6 and counts the days since Friday: `(relDay + 5) % 7` is the calendar day |
| WeekClock.WeekMinute | kiosk/js/kiosk.js:103-104 | the week-minute is below 10080, its day part is `relDay`, and its hour and minute parts are the clock's hour and minute |
| WeekClock.WeekMinuteBijective | kiosk/js/kiosk.js:103-104 | every minute of the week comes from exactly one day, hour and minute: the mapping and its reading back are inverse in both directions |
| WeekClock.WeekMinuteOrdered | kiosk/js/kiosk.js:103-104 | a larger week-minute exactly when later in the week (days since Friday, then hour, then minute) |
| WeekClock.WeekMinuteLandmarks | kiosk/js/kiosk.js:103-104 | Friday 00:00 is minute 0, Sunday 00:00 is minute 2880 |
| WeekClock.WeekMinuteLastMinute | kiosk/js/kiosk.js:103-104 | Thursday 23:59 is the last minute of the week, 10079 |
| WeekClock.Hour12 | kiosk/js/kiosk.js:93-94 | the displayed hour is in 1..12 and agrees with the 24-hour hour modulo 12 (0 shows as 12, 13-23 drop 12) |
| WeekClock.Hour12RoundTrip | kiosk/js/kiosk.js:92-94 | the 12-hour hour together with AM/PM determines the 24-hour hour |
| WeekClock.ClockText | kiosk/js/kiosk.js:99-100 | the text starts with the weekday name and ends with AM/PM, and is 11 or 12 characters longer than the name |
| WeekClock.ClockTextRoundTrip | kiosk/js/kiosk.js:92-100 | reading the clock text back gives the day, hour, minute and second it was written from; the reader accepts the hour only as `'' + h` writes it, without a leading zero |
| WeekClock.ReadHourUnpadded | kiosk/js/kiosk.js:93-94 | in every text that reads back as a clock text, the hour does not start with `0` (so `FRIDAY 09:05:07 AM` is not one) |
| SlotIndex.LastToken | kiosk/js/kiosk.js:128 | `id.split('_').pop()` is a suffix of the id with no underscore, preceded by an underscore unless it is the whole id |
| SlotIndex.RowSlot | kiosk/js/kiosk.js:129-131 | a row adds nothing when its token is empty and otherwise adds exactly one number |
| SlotIndex.CollectSlots | kiosk/js/kiosk.js:121-132 | the loop pushes, in row order, exactly the numbers of the non-empty trailing tokens (`SlotValues`) |
| SlotIndex.SlotValuesMembers | kiosk/js/kiosk.js:121-132 | a number is collected exactly when some row has a non-empty trailing token that reads as it |
| SlotIndex.SlotValuesBounds | kiosk/js/kiosk.js:121-132 | at most one slot per row, and every slot is non-negative |
| SlotIndex.Insert | kiosk/js/kiosk.js:133-135 | inserting into an ascending sequence keeps it ascending and adds exactly the one element to its elements |
| SlotIndex.SortAscending | kiosk/js/kiosk.js:133-135 | `sort((a, b) => a - b)` gives an ascending permutation of its input |
| SlotIndex.SortedPermutationUnique | kiosk/js/kiosk.js:133-135 | there is only one ascending permutation, so any correct sort gives this result |
| Resolver.RecomputedMeaning | kiosk/js/kiosk.js:57-62 | on ascending, non-empty slots, a recompute picks the latest slot that starts strictly before `t` as active (the first slot if none does); prior is a slot no later than it; next is the earliest slot at or after `t`, unset exactly when every slot is earlier |
| Resolver.Scenarios | kiosk/js/kiosk.js:57-62 | slots 480, 540, 600: minute 500 gives active 480 and next 540; 480 and 450 give active 480; 700 gives active 600 and no next |
| Resolver.RecomputedActiveMonotone | kiosk/js/kiosk.js:57-60 | the recomputed active slot never moves back as the minute grows |
| Resolver.StepKeepsTracking | kiosk/js/kiosk.js:53-62 | a call either keeps the last recompute or recomputes at a later minute, so the active slot never moves back |
| Resolver.FirstTickRecomputes | kiosk/js/kiosk.js:53-56 | with no prior time set, the guard never holds and the call recomputes |
| Resolver.RunTracks | kiosk/js/kiosk.js:53-62 | after non-decreasing ticks from cleared times, the state is the recompute at some minute between the first and the last tick |
| Resolver.RunActiveMonotone | kiosk/js/kiosk.js:53-60 | on ascending slots with non-decreasing ticks, the active slot after any prefix of the ticks is no later than after all of them |
| Resolver.StepIdempotent | kiosk/js/kiosk.js:53-62 | calling twice with the same minute leaves the state as the first call left it |
| Resolver.WaitsUntilNext | kiosk/js/kiosk.js:53-56 | after a recompute, every call before the next slot starts changes no global and touches no element |
| Resolver.SecondCallQuiet | kiosk/js/kiosk.js:53-56 | a second call in a minute that starts no slot, before the last slot, changes nothing and touches no element |
| Resolver.GuardAfterRecompute | kiosk/js/kiosk.js:53-62 | right after a recompute at a non-negative minute `t`, the guard holds for `t` exactly when no slot starts at `t` and the last slot is still to start |
| Resolver.FirstSlotMinuteRepeats | kiosk/js/kiosk.js:53-62 | as written, in the minute the first slot starts it is both active and next, the guard does not hold, and the call re-emits the row changes |
| Resolver.AfterLastSlotAlwaysRecomputes | kiosk/js/kiosk.js:53-54 | once every slot has started the next time is unset, and an unset next time never blocks: for every later call at a non-negative minute the guard does not hold, the state becomes the recompute at that minute, and the call re-emits the switch-off, switch-on and scroll changes |
| Resolver.EmptySlotsQuiet | kiosk/js/kiosk.js:50-62 | with no slots, calls from the unset state keep it unset and touch no element (when the page has no `undefined` row) |
| Resolver.RowFoundForCanonicalToken | kiosk/js/kiosk.js:70 | the row whose id ends in a canonical number is the one highlighted for that number |
| Resolver.BoundaryLag | kiosk/js/kiosk.js:53-62 | as written, in the minute a slot starts, the slot before it is still active, the guard does not hold, and the call re-emits the row changes |
| Resolver.BoundaryLagExample | kiosk/js/kiosk.js:57-60 | slots 480, 540, 600 at minute 540: 480 is still the active slot |
| Resolver.IntendedMeaning | kiosk/js/kiosk.js:57-62 | with upperBound instead, the active slot is the latest one that has started by `t`, and next is the earliest still to start |
| Resolver.IntendedSecondCallQuiet | kiosk/js/kiosk.js:53-62 | with upperBound instead, a second call in the same minute before the last slot starts is always quiet, including in the minute a slot starts |
| KioskScript.Kiosk.constructor | kiosk/js/kiosk.js:7-14 | the globals start unset, with no slots and no clock |
| KioskScript.Kiosk.SetCurrent | kiosk/js/kiosk.js:49-82 | the new globals and the appended page changes are those of one `Resolver.Step`; only the five globals and the page are changed |
| KioskScript.Kiosk.Recompute | kiosk/js/kiosk.js:57-81 | after the guard, the globals become the recompute at `t`, and the page changes are the switch-off of the old row and description, the switch-on of the new ones and the scroll |
| KioskScript.Kiosk.SetTimes | kiosk/js/kiosk.js:57-62 | the prior, active and next times are those the recompute at `t` picks |
| KioskScript.Kiosk.FindActive | kiosk/js/kiosk.js:70-71 | the active row and description are the page's elements for the active time, if it has them |
| KioskScript.Kiosk.SwitchOff | kiosk/js/kiosk.js:64-69 | appends the switch-off of the active row and description, if found |
| KioskScript.Kiosk.SwitchOn | kiosk/js/kiosk.js:72-77 | appends the switch-on of the newly active row and description, if found |
| KioskScript.Kiosk.ScrollToPrior | kiosk/js/kiosk.js:78-81 | appends the scroll to the prior slot's row, if found |
| KioskScript.Kiosk.ClockTick | kiosk/js/kiosk.js:84-110 | runs one `Resolver.Step` at the week-minute of the given time, and writes the clock text only if the clock element was found |
| KioskScript.Kiosk.LoadSlots | kiosk/js/kiosk.js:112-135 | the clock is found exactly when the page has `current_time`; the three slot times are cleared; the slots are an ascending permutation of the collected tokens |
| KioskScript.Kiosk.Load | kiosk/js/kiosk.js:112-137 | after loading, the slots are an ascending permutation of the row tokens, and the first tick has run from the cleared slot times |

## Left out

- **DOM access.** Elements are reduced to their ids. `classList` and `scrollIntoView` calls
  are ghost events. `innerHTML` is the `clockText` field. `getElementsByClassName` is the
  list of row ids in `Page`.
- **`new Date()`.** The day, hour, minute and second it supplies are method parameters.
- **Timer and page lifecycle.** `setInterval`, `clearInterval`, `cos_unloaded`,
  `window.onload` and `window.onunload` (kiosk/js/kiosk.js:138-147) are event-loop plumbing.
  The model drives ticks by explicit calls instead.
- KioskScript.Kiosk.SetCurrent: does not model the `cos_time_slots.empty` condition
  (kiosk/js/kiosk.js:50-52). A JavaScript array has no `empty` property, so the condition never
  holds and that early return is never taken.
- KioskScript.Kiosk.Load: requires every row's trailing token to be empty or a string of
  decimal digits. Every other token is excluded, whatever `1 * time_txt` makes of it: NaN
  (`"abc"`), a negative number (`"-30"`), a fraction (`"1.5"`), a hexadecimal or exponent
  number (`"0x1F"`, `"1e3"`), a number with surrounding blanks (`" 42 "`) or `Infinity`.
- KioskScript.Kiosk.Load: leaves out the skip of rows whose id is `null`
  (kiosk/js/kiosk.js:125-127). A DOM element's id is always a string, so that branch is
  never taken. `pop()` on the result of `split` is never `null`, so the `time_txt != null`
  condition is always true.
- SlotIndex.SortAscending: specifies the result of `Array.prototype.sort`, an ascending
  permutation, which `SlotIndex.SortedPermutationUnique` shows to be unique. It does not
  model the engine's algorithm, and does not sort the array in place.
- Search.BinarySearch: halves the gap with exact division instead of the 32-bit
  `(hi - lo) >> 1`. The two agree below 2^31 elements.
- Integers are unbounded. The script's numbers are doubles, so slot tokens above 2^53 would
  lose precision there and do not here.
- Resolver.RunActiveMonotone: assumes non-decreasing ticks. At Friday 00:00 the week-minute
  falls back to 0, and from then on the active slot can move back to the first one.
- **Unresolved ids.** An active or prior time that is `undefined` gives the ids
  `sched_id_undefined` and `desc_id_undefined`. These are looked up like any other id.

## Findings

| source | as written | input that shows it | evidently intended | confidence | as-written member | corrected member |
|---|---|---|---|---|---|---|
| kiosk/js/kiosk.js:57 | `lowerBound(cos_time_slots, time_slot)` finds the first slot at or after the minute. During the minute a slot starts, the next time equals the minute, so the guard fails and every tick of that minute recomputes and switches the rows off, on and scrolls again. For a later slot, the slot before it also stays active for that minute. For the first slot, the slot is both active and next, so only the repetition shows. | slots 480, 540, 600 (8:00, 9:00 and 10:00 on Friday); every tick between 9:00:00 and 9:00:59, and every tick between 8:00:00 and 8:00:59 | the search finds the first slot after the minute (`upperBound`), so the 9:00 slot is active from 9:00:00 and later ticks in that minute are quiet | not executed; medium | Resolver.BoundaryLag | Resolver.IntendedSecondCallQuiet |

The `Kiosk` class follows the code as written. `Resolver.FirstSlotMinuteRepeats` shows the
first slot's minute, and `Resolver.GuardAfterRecompute` gives every minute in which the guard
fails right after a recompute. `Resolver.StepIntended` and `Resolver.RecomputedIntended` give
the corrected step, and `Resolver.IntendedMeaning` and `Resolver.IntendedSecondCallQuiet`
prove its intended behaviour.

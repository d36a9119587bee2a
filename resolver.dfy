/** The active-slot resolver, `cos_set_current` (kiosk/js/kiosk.js:49-82), as a step function
    over the resolver's state. The page is the set of element ids `document.getElementById`
    can find; the class changes it makes are recorded as events. */
module Resolver {
  import opened Wrappers
  import opened Digits
  import opened Search

  /** What `cos_set_current` does to the page, naming the element by its id. */
  datatype DomEvent =
    | RowOff(id: string)    // classList.remove('activeRow') on the row that was active
    | DescOff(id: string)   // classList.add('inactiveDesc') on the description that was shown
    | RowOn(id: string)     // classList.add('activeRow') on the newly active row
    | DescOn(id: string)    // classList.remove('inactiveDesc') on its description
    | ScrollTo(id: string)  // scrollIntoView(true) on the row of the prior slot

  /** The module globals cos_prior_time, cos_active_time, cos_next_time, cos_active_row and
      cos_active_desc; None stands for both `null` and `undefined`. */
  datatype State = State(
    prior: Option<int>,
    active: Option<int>,
    next: Option<int>,
    activeRow: Option<string>,
    activeDesc: Option<string>)

  /** The state when the script starts, and just after a load cleared the slot times. */
  const Unset := State(None, None, None, None, None)

  datatype Outcome = Outcome(state: State, events: seq<DomEvent>)

  /** `slots[k]`: undefined past the end of the array. */
  function SlotAt(slots: seq<int>, k: nat): (v: Option<int>)
    ensures v.Some? <==> k < |slots|
    ensures v.Some? ==> v.value == slots[k]
  {
    if k < |slots| then Some(slots[k]) else None
  }

  /** A slot time inside a string concatenation: its number, or the word `undefined`. */
  function TimeText(v: Option<int>): string {
    match v
    case Some(n) => NumberText(n)
    case None => "undefined"
  }

  function RowId(v: Option<int>): string {
    "sched_id_" + TimeText(v)
  }

  function DescId(v: Option<int>): string {
    "desc_id_" + TimeText(v)
  }

  /** `document.getElementById(id)`: the element if the page has one with that id. */
  function Lookup(ids: set<string>, id: string): (e: Option<string>)
    ensures e.Some? <==> id in ids
    ensures e.Some? ==> e.value == id
  {
    if id in ids then Some(id) else None
  }

  /** `time_slot < cos_next_time` reads a null next time as 0. */
  function NullAsZero(v: Option<int>): int {
    if v.Some? then v.value else 0
  }

  /** The change-detection guard: a prior time is set and either no active time is set or
      the next slot has not started yet. */
  predicate Waits(st: State, t: int) {
    st.prior.Some? && (st.active.None? || t < NullAsZero(st.next))
  }

  /** The state set from a search index `idx`: prior four slots back, active one back (both
      clamped to the first slot), next at `idx` if there is one; then the rows and
      descriptions the page has for the active time. */
  function FromIndex(ids: set<string>, slots: seq<int>, idx: nat): State {
    var active := SlotAt(slots, if idx < 1 then 0 else idx - 1);
    State(
      SlotAt(slots, if idx < 4 then 0 else idx - 4),
      active,
      if idx < |slots| then Some(slots[idx]) else None,
      Lookup(ids, RowId(active)),
      Lookup(ids, DescId(active)))
  }

  /** The state after a recompute at minute `t`, with the index that lowerBound finds. */
  function Recomputed(ids: set<string>, slots: seq<int>, t: int): State {
    FromIndex(ids, slots, LowerIndex(slots, t))
  }

  /** Switching off the row and description that were active. */
  function OffEvents(st: State): seq<DomEvent> {
    (if st.activeRow.Some? then [RowOff(st.activeRow.value)] else [])
    + (if st.activeDesc.Some? then [DescOff(st.activeDesc.value)] else [])
  }

  /** Switching on the row and description that are now active. */
  function OnEvents(st: State): seq<DomEvent> {
    (if st.activeRow.Some? then [RowOn(st.activeRow.value)] else [])
    + (if st.activeDesc.Some? then [DescOn(st.activeDesc.value)] else [])
  }

  /** Scrolling to the prior slot's row, if the page has one. */
  function ScrollEvents(ids: set<string>, st: State): seq<DomEvent> {
    var scroll := Lookup(ids, RowId(st.prior));
    if scroll.Some? then [ScrollTo(scroll.value)] else []
  }

  /** The page changes of a recompute: switch off the old row and description, switch on
      the new ones, scroll to the prior slot's row. */
  function TransitionEvents(ids: set<string>, before: State, after: State): seq<DomEvent> {
    OffEvents(before) + OnEvents(after) + ScrollEvents(ids, after)
  }

  /** Appending the three groups of page changes one after another appends them together. */
  lemma AppendThree(log: seq<DomEvent>, a: seq<DomEvent>, b: seq<DomEvent>, c: seq<DomEvent>)
    ensures log + a + b + c == log + (a + b + c)
  {
  }

  /** One call of `cos_set_current(t)`. */
  function Step(ids: set<string>, slots: seq<int>, st: State, t: int): Outcome {
    if Waits(st, t) then Outcome(st, [])
    else
      var after := Recomputed(ids, slots, t);
      Outcome(after, TransitionEvents(ids, st, after))
  }

  /** Successive ticks, the last one last: the final state and every page change in order. */
  function Run(ids: set<string>, slots: seq<int>, st: State, ticks: seq<int>): Outcome
    decreases |ticks|
  {
    if ticks == [] then Outcome(st, [])
    else
      var before := Run(ids, slots, st, ticks[..|ticks| - 1]);
      var last := Step(ids, slots, before.state, ticks[|ticks| - 1]);
      Outcome(last.state, before.events + last.events)
  }

  /** What a recompute means on ascending, non-empty slots: the active slot is the latest one
      that starts strictly before `t` (or the first slot if none does), the prior slot is no
      later than it, and the next slot is the earliest one at or after `t` (unset if every
      slot is earlier). */
  lemma RecomputedMeaning(ids: set<string>, slots: seq<int>, t: int)
    requires Sorted(slots) && |slots| > 0
    ensures var st := Recomputed(ids, slots, t);
      && st.prior.Some? && st.active.Some?
      && st.prior.value in slots && st.active.value in slots
      && st.prior.value <= st.active.value
      && (t <= slots[0] ==> st.active.value == slots[0])
      && (slots[0] < t ==>
            st.active.value < t &&
            forall j :: 0 <= j < |slots| && slots[j] < t ==> slots[j] <= st.active.value)
      && (st.next.None? <==> forall j :: 0 <= j < |slots| ==> slots[j] < t)
      && (st.next.Some? ==>
            t <= st.next.value && st.next.value in slots &&
            forall j :: 0 <= j < |slots| && t <= slots[j] ==> st.next.value <= slots[j])
  {
    var idx := LowerIndex(slots, t);
    LowerIndexSplits(slots, t);
    var a := if idx < 1 then 0 else idx - 1;
    var p := if idx < 4 then 0 else idx - 4;
    assert slots[p] <= slots[a];
    if slots[0] < t {
      assert 0 < idx;
      forall j | 0 <= j < |slots| && slots[j] < t ensures slots[j] <= slots[a] {
        assert j < idx;
      }
    }
    if idx < |slots| {
      forall j | 0 <= j < |slots| && t <= slots[j] ensures slots[idx] <= slots[j] {
        assert idx <= j;
      }
    }
  }

  /** The active slot never moves back as the minute advances. */
  lemma RecomputedActiveMonotone(ids: set<string>, slots: seq<int>, t0: int, t1: int)
    requires Sorted(slots) && |slots| > 0 && t0 <= t1
    ensures Recomputed(ids, slots, t0).active.value <= Recomputed(ids, slots, t1).active.value
  {
    LowerIndexMonotone(slots, t0, t1);
  }

  /** A tick never moves the active slot back: the state it leaves is the recompute at some
      minute between the last recompute and now. */
  lemma StepKeepsTracking(ids: set<string>, slots: seq<int>, t0: int, t1: int)
    returns (t2: int)
    requires Sorted(slots) && |slots| > 0 && t0 <= t1
    ensures t0 <= t2 <= t1
    ensures Step(ids, slots, Recomputed(ids, slots, t0), t1).state == Recomputed(ids, slots, t2)
    ensures Recomputed(ids, slots, t0).active.value <= Recomputed(ids, slots, t2).active.value
  {
    if Waits(Recomputed(ids, slots, t0), t1) {
      t2 := t0;
    } else {
      t2 := t1;
      RecomputedActiveMonotone(ids, slots, t0, t1);
    }
  }

  /** The first tick after the slot times were cleared always recomputes. */
  lemma FirstTickRecomputes(ids: set<string>, slots: seq<int>, st: State, t: int)
    requires st.prior.None?
    ensures Step(ids, slots, st, t).state == Recomputed(ids, slots, t)
  {
  }

  /** Over ticks that do not go back in time, from cleared slot times, the state is always
      the recompute at a minute no later than the latest tick. */
  lemma {:induction false} RunTracks(ids: set<string>, slots: seq<int>, st: State, ticks: seq<int>)
    returns (t: int)
    requires Sorted(slots) && |slots| > 0 && st.prior.None? && |ticks| > 0
    requires forall i, j :: 0 <= i <= j < |ticks| ==> ticks[i] <= ticks[j]
    ensures ticks[0] <= t <= ticks[|ticks| - 1]
    ensures Run(ids, slots, st, ticks).state == Recomputed(ids, slots, t)
    decreases |ticks|
  {
    var init := ticks[..|ticks| - 1];
    if init == [] {
      t := ticks[0];
    } else {
      var t0 := RunTracks(ids, slots, st, init);
      t := StepKeepsTracking(ids, slots, t0, ticks[|ticks| - 1]);
    }
  }

  /** Resolver monotonicity: over ascending slots and ticks that do not go back in time, the
      active slot after any prefix of the ticks is no later than after all of them. */
  lemma {:induction false} RunActiveMonotone(
    ids: set<string>, slots: seq<int>, st: State, ticks: seq<int>, k: nat)
    requires Sorted(slots) && |slots| > 0 && st.prior.None?
    requires forall i, j :: 0 <= i <= j < |ticks| ==> ticks[i] <= ticks[j]
    requires 0 < k <= |ticks|
    ensures Run(ids, slots, st, ticks[..k]).state.active.Some?
    ensures Run(ids, slots, st, ticks).state.active.Some?
    ensures Run(ids, slots, st, ticks[..k]).state.active.value
      <= Run(ids, slots, st, ticks).state.active.value
    decreases |ticks| - k
  {
    var before := ticks[..k];
    var ta := RunTracks(ids, slots, st, before);
    RecomputedMeaning(ids, slots, ta);
    if k < |ticks| {
      var longer := ticks[..k + 1];
      assert longer[..k] == before;
      var tb := StepKeepsTracking(ids, slots, ta, ticks[k]);
      assert Run(ids, slots, st, longer).state == Recomputed(ids, slots, tb);
      RunActiveMonotone(ids, slots, st, ticks, k + 1);
    } else {
      assert before == ticks;
    }
  }

  /** Calling twice with the same minute leaves the state as the first call left it. */
  lemma StepIdempotent(ids: set<string>, slots: seq<int>, st: State, t: int)
    ensures var once := Step(ids, slots, st, t).state;
      Step(ids, slots, once, t).state == once
  {
  }

  /** The guard, once set by a recompute at `t`, holds off every later tick until the next
      slot starts: such ticks change nothing and touch no element. */
  lemma WaitsUntilNext(ids: set<string>, slots: seq<int>, t: int, t2: int)
    requires Sorted(slots) && |slots| > 0
    requires Recomputed(ids, slots, t).next.Some?
    requires t2 < Recomputed(ids, slots, t).next.value
    ensures Step(ids, slots, Recomputed(ids, slots, t), t2)
      == Outcome(Recomputed(ids, slots, t), [])
  {
    RecomputedMeaning(ids, slots, t);
  }

  /** A second call in a minute that no slot starts, before the last slot, changes nothing
      and touches no element. */
  lemma SecondCallQuiet(ids: set<string>, slots: seq<int>, st: State, t: int)
    requires Sorted(slots) && |slots| > 0
    requires t !in slots && t < slots[|slots| - 1]
    ensures var once := Step(ids, slots, st, t).state;
      Step(ids, slots, once, t) == Outcome(once, [])
  {
    RecomputedMeaning(ids, slots, t);
    var once := Step(ids, slots, st, t).state;
    if !Waits(st, t) {
      var r := Recomputed(ids, slots, t);
      assert r.next.Some? by {
        assert !(slots[|slots| - 1] < t);
      }
      assert r.next.value != t;
      WaitsUntilNext(ids, slots, t, t);
    }
  }

  /** Once every slot has started (no next slot), the guard no longer holds for any tick at
      a non-negative minute: an unset next time never blocks, so every call recomputes and
      re-emits the page changes. */
  lemma AfterLastSlotAlwaysRecomputes(ids: set<string>, slots: seq<int>, t: int, t2: int)
    requires Sorted(slots) && |slots| > 0
    requires slots[|slots| - 1] < t && 0 <= t2
    ensures Recomputed(ids, slots, t).next.None?
    ensures !Waits(Recomputed(ids, slots, t), t2)
    ensures Step(ids, slots, Recomputed(ids, slots, t), t2).state == Recomputed(ids, slots, t2)
    ensures Step(ids, slots, Recomputed(ids, slots, t), t2).events
         == TransitionEvents(ids, Recomputed(ids, slots, t), Recomputed(ids, slots, t2))
  {
    RecomputedMeaning(ids, slots, t);
  }

  /** Right after a recompute at a non-negative minute `t`, the guard holds for `t` exactly
      when no slot starts at `t` and the last slot is still to start: in the minute any slot
      starts, the first one included, and after the last slot, every tick recomputes. */
  lemma GuardAfterRecompute(ids: set<string>, slots: seq<int>, t: int)
    requires Sorted(slots) && |slots| > 0 && 0 <= t
    ensures Waits(Recomputed(ids, slots, t), t) <==> t !in slots && t < slots[|slots| - 1]
  {
    RecomputedMeaning(ids, slots, t);
    LowerIndexSplits(slots, t);
    var r := Recomputed(ids, slots, t);
    if t in slots {
      var k :| 0 <= k < |slots| && slots[k] == t;
      assert r.next.Some? && r.next.value <= slots[k];
    }
    if t !in slots && t < slots[|slots| - 1] {
      assert !(slots[|slots| - 1] < t);
    }
  }

  /** As written, in the minute the first slot starts it is both the active and the next
      slot, the guard does not hold, and every tick of that minute switches its row off and
      on again. */
  lemma FirstSlotMinuteRepeats(ids: set<string>, slots: seq<int>)
    requires Sorted(slots) && |slots| > 0
    ensures var st := Recomputed(ids, slots, slots[0]);
      && st.active == Some(slots[0]) && st.next == Some(slots[0])
      && !Waits(st, slots[0])
      && (RowId(Some(slots[0])) in ids ==> Step(ids, slots, st, slots[0]).events != [])
  {
    assert LowerIndex(slots, slots[0]) == 0;
  }

  /** With no slots, no tick from the unset state touches any element, as long as the page
      has no row or description for the time `undefined`. */
  lemma {:induction false} EmptySlotsQuiet(ids: set<string>, ticks: seq<int>)
    requires RowId(None) !in ids && DescId(None) !in ids
    ensures Run(ids, [], Unset, ticks) == Outcome(Unset, [])
    decreases |ticks|
  {
    if ticks != [] {
      EmptySlotsQuiet(ids, ticks[..|ticks| - 1]);
    }
  }

  /** A row whose id ends in a canonical number is the one highlighted for that number. */
  lemma RowFoundForCanonicalToken(ids: set<string>, token: string)
    requires Canonical(token) && "sched_id_" + token in ids
    ensures Lookup(ids, RowId(Some(DigitsValue(token)))) == Some("sched_id_" + token)
  {
    CanonicalRoundTrip(token);
  }

  /** The worked examples on the slots 8:00, 9:00 and 10:00 (minutes 480, 540, 600). */
  lemma Scenarios(ids: set<string>)
    ensures Recomputed(ids, [480, 540, 600], 500).active == Some(480)
    ensures Recomputed(ids, [480, 540, 600], 500).next == Some(540)
    ensures Recomputed(ids, [480, 540, 600], 480).active == Some(480)
    ensures Recomputed(ids, [480, 540, 600], 450).active == Some(480)
    ensures Recomputed(ids, [480, 540, 600], 700).active == Some(600)
    ensures Recomputed(ids, [480, 540, 600], 700).next == None
  {
    assert LowerIndex([480, 540, 600], 500) == 1;
    assert LowerIndex([480, 540, 600], 480) == 0;
    assert LowerIndex([480, 540, 600], 450) == 0;
    assert LowerIndex([480, 540, 600], 700) == 3;
  }

  /** As written, the slot that starts at minute `t` is not active during that minute: the
      one before it stays active, and since the next time is `t` itself the guard does not
      hold, so every tick of that minute recomputes and again switches the rows off and on. */
  lemma BoundaryLag(ids: set<string>, slots: seq<int>, j: nat)
    requires Sorted(slots) && 0 < j < |slots| && slots[j - 1] < slots[j]
    ensures var st := Recomputed(ids, slots, slots[j]);
      && st.active == Some(slots[j - 1])
      && st.next == Some(slots[j])
      && !Waits(st, slots[j])
      && (RowId(Some(slots[j - 1])) in ids ==> Step(ids, slots, st, slots[j]).events != [])
  {
    var idx := LowerIndex(slots, slots[j]);
    assert idx == j by {
      LowerIndexSplits(slots, slots[j]);
      assert slots[j - 1] < slots[j];
    }
  }

  /** On the slots 480, 540, 600 at minute 540 the 480 slot is still the active one. */
  lemma BoundaryLagExample(ids: set<string>)
    ensures Recomputed(ids, [480, 540, 600], 540).active == Some(480)
  {
    assert LowerIndex([480, 540, 600], 540) == 1;
  }

  /** The intended recompute: the index upperBound finds, so that a slot is active from the
      minute it starts. */
  function RecomputedIntended(ids: set<string>, slots: seq<int>, t: int): State {
    FromIndex(ids, slots, UpperIndex(slots, t))
  }

  /** `cos_set_current` with the intended recompute. */
  function StepIntended(ids: set<string>, slots: seq<int>, st: State, t: int): Outcome {
    if Waits(st, t) then Outcome(st, [])
    else
      var after := RecomputedIntended(ids, slots, t);
      Outcome(after, TransitionEvents(ids, st, after))
  }

  /** With the intended recompute on ascending, non-empty slots, the active slot is the latest
      one that has started by minute `t` (or the first slot if none has), and the next slot
      is the earliest one still to start. */
  lemma IntendedMeaning(ids: set<string>, slots: seq<int>, t: int)
    requires Sorted(slots) && |slots| > 0
    ensures var st := RecomputedIntended(ids, slots, t);
      && st.active.Some? && st.active.value in slots
      && (t < slots[0] ==> st.active.value == slots[0])
      && (slots[0] <= t ==>
            st.active.value <= t &&
            forall j :: 0 <= j < |slots| && slots[j] <= t ==> slots[j] <= st.active.value)
      && (st.next.None? <==> forall j :: 0 <= j < |slots| ==> slots[j] <= t)
      && (st.next.Some? ==>
            t < st.next.value &&
            forall j :: 0 <= j < |slots| && t < slots[j] ==> st.next.value <= slots[j])
  {
    var idx := UpperIndex(slots, t);
    UpperIndexSplits(slots, t);
    var a := if idx < 1 then 0 else idx - 1;
    if slots[0] <= t {
      assert 0 < idx;
      forall j | 0 <= j < |slots| && slots[j] <= t ensures slots[j] <= slots[a] {
        assert j < idx;
      }
    }
    if idx < |slots| {
      forall j | 0 <= j < |slots| && t < slots[j] ensures slots[idx] <= slots[j] {
        assert idx <= j;
      }
    }
  }

  /** With the intended recompute, a second call in the same minute, before the last slot has
      started, changes nothing and touches no element, including the minute a slot starts. */
  lemma IntendedSecondCallQuiet(ids: set<string>, slots: seq<int>, st: State, t: int)
    requires Sorted(slots) && |slots| > 0 && t < slots[|slots| - 1]
    ensures var once := StepIntended(ids, slots, st, t).state;
      StepIntended(ids, slots, once, t) == Outcome(once, [])
  {
    IntendedMeaning(ids, slots, t);
    if !Waits(st, t) {
      var r := RecomputedIntended(ids, slots, t);
      assert r.next.Some? by {
        assert !(slots[|slots| - 1] <= t);
      }
    }
  }
}

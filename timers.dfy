/** Press-and-hold stepping: the per-id timer slot shared by prev and next, and the calls it causes. */
module Timers {
  import opened Wrappers
  import opened Controls
  import opened Handle

  /** step: +1 for the next button, -1 for anything else. */
  function StepDelta(dir: Control): (d: int)
    ensures d == 1 <==> dir == NextBtn
    ensures d == -1 <==> dir != NextBtn
  {
    if dir == NextBtn then 1 else -1
  }

  /** The events that reach one id's timer slot: a mousedown on a move button, a mouseup on either move
      button, or one elapsed interval of the repeating timer. */
  datatype TimerEvent = Down(dir: Control) | Up(button: Control) | Interval

  /** The timer table entry of `id`: the direction of its active timer, if any. */
  function SlotOf(t: map<nat, Control>, id: nat): Option<Control>
  {
    if id in t then Some(t[id]) else None
  }

  /** The timer table with the entry of `id` replaced (None cancels the timer). */
  function SetSlot(t: map<nat, Control>, id: nat, s: Option<Control>): (r: map<nat, Control>)
    ensures SlotOf(r, id) == s
    ensures forall j :: j != id ==> SlotOf(r, j) == SlotOf(t, j)
    ensures r.Keys <= t.Keys + {id}
  {
    if s.Some? then t[id := s.value] else t - {id}
  }

  /** The slot after one event: mousedown cancels and reinstalls, mouseup cancels whichever button it is on. */
  function SlotAfter(slot: Option<Control>, e: TimerEvent): (r: Option<Control>)
    ensures r.Some? <==> e.Down? || (e.Interval? && slot.Some?)
    ensures e.Down? ==> r == Some(e.dir)
    ensures e.Interval? ==> r == slot
  {
    match e
    case Down(d) => Some(d)
    case Up(_) => None
    case Interval => slot
  }

  /** The handle calls of one event: mousedown pauses and steps once at once; an interval steps only while a timer is active. */
  function CallsOf(slot: Option<Control>, e: TimerEvent): (r: seq<Call>)
    ensures forall c :: c in r ==> c == Pause || c == MoveRelative(1) || c == MoveRelative(-1)
    ensures Pause in r <==> e.Down?
    ensures |r| == 1 <==> e.Interval? && slot.Some?
    ensures r == [] <==> e.Up? || (e.Interval? && slot.None?)
  {
    match e
    case Down(d) => [Pause, MoveRelative(StepDelta(d))]
    case Up(_) => []
    case Interval => if slot.Some? then [MoveRelative(StepDelta(slot.value))] else []
  }

  /** The handle calls of a sequence of events, starting from `slot`. */
  function Run(slot: Option<Control>, evs: seq<TimerEvent>): seq<Call>
    decreases |evs|
  {
    if evs == [] then [] else CallsOf(slot, evs[0]) + Run(SlotAfter(slot, evs[0]), evs[1..])
  }

  /** The slot after a sequence of events. */
  function Settle(slot: Option<Control>, evs: seq<TimerEvent>): Option<Control>
    decreases |evs|
  {
    if evs == [] then slot else Settle(SlotAfter(slot, evs[0]), evs[1..])
  }

  function Ticks(n: nat): seq<TimerEvent>
  {
    if n == 0 then [] else [Interval] + Ticks(n - 1)
  }

  function Repeat(c: Call, n: nat): seq<Call>
  {
    if n == 0 then [] else [c] + Repeat(c, n - 1)
  }

  /** Running two event sequences one after the other. */
  lemma {:induction false} RunAppend(slot: Option<Control>, a: seq<TimerEvent>, b: seq<TimerEvent>)
    ensures Run(slot, a + b) == Run(slot, a) + Run(Settle(slot, a), b)
    ensures Settle(slot, a + b) == Settle(Settle(slot, a), b)
    decreases |a|
  {
    if a == [] {
      assert a + b == b;
    } else {
      assert (a + b)[0] == a[0];
      assert (a + b)[1..] == a[1..] + b;
      RunAppend(SlotAfter(slot, a[0]), a[1..], b);
    }
  }

  /** While a timer is active, every interval steps once in its direction and leaves it in place. */
  lemma {:induction false} HeldTicks(d: Control, n: nat)
    ensures Run(Some(d), Ticks(n)) == Repeat(MoveRelative(StepDelta(d)), n)
    ensures Settle(Some(d), Ticks(n)) == Some(d)
  {
    if n > 0 {
      HeldTicks(d, n - 1);
      assert Ticks(n)[1..] == Ticks(n - 1);
    }
  }

  /** With no active timer, intervals cause no call at all. */
  lemma {:induction false} IdleTicks(n: nat)
    ensures Run(None, Ticks(n)) == []
    ensures Settle(None, Ticks(n)) == None
  {
    if n > 0 {
      IdleTicks(n - 1);
      assert Ticks(n)[1..] == Ticks(n - 1);
    }
  }

  /** Press, hold for n intervals, release on either move button, then m more intervals: one pause, one immediate
      step, n repeated steps, and nothing after the release. */
  lemma PressHoldRelease(slot: Option<Control>, d: Control, b: Control, n: nat, m: nat)
    ensures Run(slot, [Down(d)] + Ticks(n) + [Up(b)] + Ticks(m))
         == [Pause, MoveRelative(StepDelta(d))] + Repeat(MoveRelative(StepDelta(d)), n)
    ensures Settle(slot, [Down(d)] + Ticks(n) + [Up(b)] + Ticks(m)) == None
  {
    var mv := MoveRelative(StepDelta(d));
    RunAppend(slot, [Down(d)], Ticks(n));
    HeldTicks(d, n);
    RunAppend(slot, [Down(d)] + Ticks(n), [Up(b)]);
    RunAppend(slot, [Down(d)] + Ticks(n) + [Up(b)], Ticks(m));
    IdleTicks(m);
  }

  /** A second mousedown before the mouseup replaces the timer: intervals still step once each, in the new direction. */
  lemma RepressDoesNotDouble(slot: Option<Control>, d1: Control, d2: Control, n: nat)
    ensures Run(slot, [Down(d1), Down(d2)] + Ticks(n))
         == [Pause, MoveRelative(StepDelta(d1)), Pause, MoveRelative(StepDelta(d2))] + Repeat(MoveRelative(StepDelta(d2)), n)
  {
    RunAppend(slot, [Down(d1), Down(d2)], Ticks(n));
    HeldTicks(d2, n);
  }

  /** Holding next over three interval boundaries: the pause, then four steps of +1. */
  lemma HoldNextThreeIntervals(slot: Option<Control>)
    ensures Run(slot, [Down(NextBtn)] + Ticks(3) + [Up(NextBtn)]) == [Pause] + Repeat(MoveRelative(1), 4)
  {
    PressHoldRelease(slot, NextBtn, NextBtn, 3, 0);
    assert [Down(NextBtn)] + Ticks(3) + [Up(NextBtn)] + Ticks(0) == [Down(NextBtn)] + Ticks(3) + [Up(NextBtn)];
  }
}

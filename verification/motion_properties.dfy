/**
 * Properties of the motion state machine, one event at a time and over
 * whole event sequences: the transition table, the wrap-around of the
 * position, braking that always ends on a full step within eight ticks,
 * and the invariant that a stopped motor sits on a full step.
 */
module MotionProperties {
  import opened Wrappers
  import opened Commutation
  import opened Traces
  import opened Motion

  /** The `ARRET` column of the table: a direction event starts the motor
      in that direction; a stop or a tick changes nothing. */
  lemma StoppedTransitions(p: Position, e: Event)
    ensures e == Forward ==> Step(Motor(Stopped, p), e) == Transition(Motor(RunningForward, p), None)
    ensures e == Backward ==> Step(Motor(Stopped, p), e) == Transition(Motor(RunningBackward, p), None)
    ensures e == Stop || e == Tick ==> Step(Motor(Stopped, p), e) == Transition(Motor(Stopped, p), None)
  {
  }

  /** The running states: a tick writes the moving commutation of the
      current position and steps one position in the running direction;
      the opposite direction or a stop starts braking; the same direction is
      ignored. */
  lemma RunningTransitions(p: Position, e: Event)
    ensures e == Tick ==>
      Step(Motor(RunningForward, p), e) == Transition(Motor(RunningForward, (p + 1) % 32), Some(Moving(p)))
    ensures e == Tick ==>
      Step(Motor(RunningBackward, p), e) == Transition(Motor(RunningBackward, (p + 31) % 32), Some(Moving(p)))
    ensures e == Backward || e == Stop ==>
      Step(Motor(RunningForward, p), e) == Transition(Motor(BrakingForward, p), None)
    ensures e == Forward || e == Stop ==>
      Step(Motor(RunningBackward, p), e) == Transition(Motor(BrakingBackward, p), None)
    ensures Step(Motor(RunningForward, p), Forward) == Transition(Motor(RunningForward, p), None)
    ensures Step(Motor(RunningBackward, p), Backward) == Transition(Motor(RunningBackward, p), None)
  {
  }

  /** The braking states: on a full step a tick writes the parked
      commutation and stops without moving; elsewhere it writes the moving
      commutation and steps on in the braking direction. Every other event,
      a request to resume included, is ignored. */
  lemma BrakingTransitions(p: Position, e: Event)
    ensures OnFullStep(p) <==> p % 8 == 0
    ensures e == Tick && p % 8 == 0 ==>
      Step(Motor(BrakingForward, p), e) == Transition(Motor(Stopped, p), Some(Parked(p))) &&
      Step(Motor(BrakingBackward, p), e) == Transition(Motor(Stopped, p), Some(Parked(p)))
    ensures e == Tick && p % 8 != 0 ==>
      Step(Motor(BrakingForward, p), e) == Transition(Motor(BrakingForward, (p + 1) % 32), Some(Moving(p))) &&
      Step(Motor(BrakingBackward, p), e) == Transition(Motor(BrakingBackward, (p + 31) % 32), Some(Moving(p)))
    ensures e != Tick ==>
      Step(Motor(BrakingForward, p), e) == Transition(Motor(BrakingForward, p), None) &&
      Step(Motor(BrakingBackward, p), e) == Transition(Motor(BrakingBackward, p), None)
  {
  }

  /** What every single event does, whatever the state: the position never
      jumps, but stays or moves one micro-step in the direction of the
      current state, and only on a tick; the motor comes to rest only on a
      full step; and a direction is never reversed without stopping first. */
  lemma StepProperties(m: Motor, e: Event)
    ensures var t := Step(m, e);
      && (e != Tick || m.state == Stopped ==> t.next.pas == m.pas)
      && (e == Tick && Forwards(m.state) ==>
           t.next.pas == (m.pas + 1) % 32 || (t.next.state == Stopped && t.next.pas == m.pas))
      && (e == Tick && Backwards(m.state) ==>
           t.next.pas == (m.pas + 31) % 32 || (t.next.state == Stopped && t.next.pas == m.pas))
      && (t.next.state == Stopped && m.state != Stopped ==> t.next.pas % 8 == 0)
      && (Forwards(m.state) ==> !Backwards(t.next.state))
      && (Backwards(m.state) ==> !Forwards(t.next.state))
  {
  }

  /** A stopped motor ignores any number of stops and ticks: repeating
      `ARRETE` is idempotent and writes nothing. */
  lemma {:induction false} StoppedIgnoresStopsAndTicks(p: Position, events: seq<Event>)
    requires forall i :: 0 <= i < |events| ==> events[i] == Stop || events[i] == Tick
    ensures Run(Step, Motor(Stopped, p), events) == Trace(Motor(Stopped, p), [])
    decreases |events|
  {
    if |events| > 0 {
      assert events == [events[0]] + events[1..];
      RunFirst(Step, Motor(Stopped, p), events[0], events[1..]);
      StoppedIgnoresStopsAndTicks(p, events[1..]);
    }
  }

  /** A braking motor ignores any sequence of commands without a tick: it
      neither resumes, nor reverses, nor moves, nor writes. */
  lemma {:induction false} BrakingIgnoresCommands(m: Motor, events: seq<Event>)
    requires m.state == BrakingForward || m.state == BrakingBackward
    requires forall i :: 0 <= i < |events| ==> events[i] != Tick
    ensures Run(Step, m, events) == Trace(m, [])
    decreases |events|
  {
    if |events| > 0 {
      assert events == [events[0]] + events[1..];
      RunFirst(Step, m, events[0], events[1..]);
      BrakingIgnoresCommands(m, events[1..]);
    }
  }

  /** When a tick takes `m` to `next` and writes `out`, `k` ticks from `m`
      write `out` and then whatever `k - 1` ticks from `next` write. */
  lemma TickThen(m: Motor, k: nat, next: Motor, out: Output)
    requires k > 0
    requires Step(m, Tick) == Transition(next, Some(out))
    ensures Run(Step, m, Ticks(k)).last == Run(Step, next, Ticks(k - 1)).last
    ensures Run(Step, m, Ticks(k)).outputs == [out] + Run(Step, next, Ticks(k - 1)).outputs
    ensures |Run(Step, m, Ticks(k)).outputs| == 1 + |Run(Step, next, Ticks(k - 1)).outputs|
  {
    assert Ticks(k) == [Tick] + Ticks(k - 1);
    RunFirst(Step, m, Tick, Ticks(k - 1));
  }

  /** `k` ticks are `k - 1` ticks followed by one more. */
  lemma TicksSnoc(k: nat)
    requires k > 0
    ensures Ticks(k) == Ticks(k - 1) + [Tick]
  {
  }

  /** The position `k` forward steps after `p`, one `Advance` per step. */
  function Ahead(p: Position, k: nat): Position
    decreases k
  {
    if k == 0 then p else Ahead(Advance(p), k - 1)
  }

  /** The position `k` backward steps before `p`, one `Retreat` per step. */
  function Behind(p: Position, k: nat): Position
    decreases k
  {
    if k == 0 then p else Behind(Retreat(p), k - 1)
  }

  /** Stepping forward once and then `k - 1` more positions is stepping `k` positions. */
  lemma ShiftForward(p: Position, k: int)
    ensures ((p + 1) % 32 + (k - 1)) % 32 == (p + k) % 32
  {
  }

  /** Stepping backward once and then `k - 1` more positions is stepping back `k` positions. */
  lemma ShiftBackward(p: Position, k: int)
    ensures ((p + 31) % 32 - (k - 1)) % 32 == (p - k) % 32
  {
  }

  /** `k` forward steps, each wrapping from 31 to 0, add `k` modulo 32. */
  lemma {:induction false} AheadIsSum(p: Position, k: nat)
    ensures Ahead(p, k) == (p + k) % 32
    decreases k
  {
    if k > 0 {
      AheadIsSum(Advance(p), k - 1);
      ShiftForward(p, k);
    }
  }

  /** `k` backward steps, each wrapping from 0 to 31, subtract `k` modulo 32. */
  lemma {:induction false} BehindIsDifference(p: Position, k: nat)
    ensures Behind(p, k) == (p - k) % 32
    decreases k
  {
    if k > 0 {
      BehindIsDifference(Retreat(p), k - 1);
      ShiftBackward(p, k);
    }
  }

  /** Up to `p` backward steps from `p` never wrap. */
  lemma BehindWithin(p: Position, k: nat)
    requires k <= p
    ensures Behind(p, k) == p - k
  {
  }

  /** `outs` holds what `f` gives for the positions of a forward sweep
      from `p`: entry `j` is `f` of the position `j` steps ahead. */
  predicate SweepsUp<T(==)>(f: Position -> T, p: Position, outs: seq<T>) {
    forall j :: 0 <= j < |outs| ==> outs[j] == f(Ahead(p, j))
  }

  /** `outs` holds what `f` gives for the positions of a backward sweep
      from `p`: entry `j` is `f` of the position `j` steps behind. */
  predicate SweepsDown<T(==)>(f: Position -> T, p: Position, outs: seq<T>) {
    forall j :: 0 <= j < |outs| ==> outs[j] == f(Behind(p, j))
  }

  /** A forward sweep from `p` is the entry for `p` followed by a forward
      sweep from the next position. */
  lemma SweepsUpPrefix<T>(f: Position -> T, p: Position, rest: seq<T>)
    requires SweepsUp(f, Advance(p), rest)
    ensures SweepsUp(f, p, [f(p)] + rest)
  {
  }

  /** A backward sweep from `p` is the entry for `p` followed by a backward
      sweep from the previous position. */
  lemma SweepsDownPrefix<T>(f: Position -> T, p: Position, rest: seq<T>)
    requires SweepsDown(f, Retreat(p), rest)
    ensures SweepsDown(f, p, [f(p)] + rest)
  {
  }

  /** One tick from `p` that steps forward to `Advance(p)` writing the moving
      commutation of `p`, followed by a forward sweep of `k - 1` ticks from
      there, is a forward sweep of `k` ticks from `p` in the same state. */
  lemma ExtendUp(s: State, p: Position, k: nat)
    requires k > 0
    requires Step(Motor(s, p), Tick) == Transition(Motor(s, Advance(p)), Some(Moving(p)))
    requires Run(Step, Motor(s, Advance(p)), Ticks(k - 1)).last == Motor(s, Ahead(Advance(p), k - 1))
    requires |Run(Step, Motor(s, Advance(p)), Ticks(k - 1)).outputs| == k - 1
    requires SweepsUp(Moving, Advance(p), Run(Step, Motor(s, Advance(p)), Ticks(k - 1)).outputs)
    ensures Run(Step, Motor(s, p), Ticks(k)).last == Motor(s, Ahead(p, k))
    ensures |Run(Step, Motor(s, p), Ticks(k)).outputs| == k
    ensures SweepsUp(Moving, p, Run(Step, Motor(s, p), Ticks(k)).outputs)
  {
    var next := Motor(s, Advance(p));
    TickThen(Motor(s, p), k, next, Moving(p));
    SweepsUpPrefix(Moving, p, Run(Step, next, Ticks(k - 1)).outputs);
  }

  /** One tick from `p` that steps backward to `Retreat(p)` writing the
      moving commutation of `p`, followed by a backward sweep of `k - 1`
      ticks from there, is a backward sweep of `k` ticks from `p`. */
  lemma ExtendDown(s: State, p: Position, k: nat)
    requires k > 0
    requires Step(Motor(s, p), Tick) == Transition(Motor(s, Retreat(p)), Some(Moving(p)))
    requires Run(Step, Motor(s, Retreat(p)), Ticks(k - 1)).last == Motor(s, Behind(Retreat(p), k - 1))
    requires |Run(Step, Motor(s, Retreat(p)), Ticks(k - 1)).outputs| == k - 1
    requires SweepsDown(Moving, Retreat(p), Run(Step, Motor(s, Retreat(p)), Ticks(k - 1)).outputs)
    ensures Run(Step, Motor(s, p), Ticks(k)).last == Motor(s, Behind(p, k))
    ensures |Run(Step, Motor(s, p), Ticks(k)).outputs| == k
    ensures SweepsDown(Moving, p, Run(Step, Motor(s, p), Ticks(k)).outputs)
  {
    var next := Motor(s, Retreat(p));
    TickThen(Motor(s, p), k, next, Moving(p));
    SweepsDownPrefix(Moving, p, Run(Step, next, Ticks(k - 1)).outputs);
  }

  /** Running forward, `k` ticks keep the motor running and sweep it
      forward `k` positions, writing the moving commutation of each
      position it leaves. */
  lemma {:induction false} RunningForwardSweep(p: Position, k: nat)
    ensures Run(Step, Motor(RunningForward, p), Ticks(k)).last == Motor(RunningForward, Ahead(p, k))
    ensures |Run(Step, Motor(RunningForward, p), Ticks(k)).outputs| == k
    ensures SweepsUp(Moving, p, Run(Step, Motor(RunningForward, p), Ticks(k)).outputs)
    decreases k
  {
    if k > 0 {
      RunningForwardSweep(Advance(p), k - 1);
      ExtendUp(RunningForward, p, k);
    }
  }

  /** Running backward, `k` ticks keep the motor running and sweep it
      backward `k` positions, writing the moving commutation of each
      position it leaves. */
  lemma {:induction false} RunningBackwardSweep(p: Position, k: nat)
    ensures Run(Step, Motor(RunningBackward, p), Ticks(k)).last == Motor(RunningBackward, Behind(p, k))
    ensures |Run(Step, Motor(RunningBackward, p), Ticks(k)).outputs| == k
    ensures SweepsDown(Moving, p, Run(Step, Motor(RunningBackward, p), Ticks(k)).outputs)
    decreases k
  {
    if k > 0 {
      RunningBackwardSweep(Retreat(p), k - 1);
      ExtendDown(RunningBackward, p, k);
    }
  }

  /** After `k` ticks running forward from `p` the motor is still running
      forward, on position `(p + k) mod 32` (31 wraps to 0), and tick `j`
      wrote the moving commutation of position `(p + j) mod 32`. */
  lemma RunningForwardTicks(p: Position, k: nat)
    ensures Run(Step, Motor(RunningForward, p), Ticks(k)).last == Motor(RunningForward, (p + k) % 32)
    ensures |Run(Step, Motor(RunningForward, p), Ticks(k)).outputs| == k
    ensures forall j :: 0 <= j < k ==> Run(Step, Motor(RunningForward, p), Ticks(k)).outputs[j] == Moving((p + j) % 32)
  {
    RunningForwardSweep(p, k);
    AheadIsSum(p, k);
    forall j | 0 <= j < k
      ensures Ahead(p, j) == (p + j) % 32
    {
      AheadIsSum(p, j);
    }
  }

  /** After `k` ticks running backward from `p` the motor is still running
      backward, on position `(p - k) mod 32` (0 wraps to 31), and tick `j`
      wrote the moving commutation of position `(p - j) mod 32`. */
  lemma RunningBackwardTicks(p: Position, k: nat)
    ensures Run(Step, Motor(RunningBackward, p), Ticks(k)).last == Motor(RunningBackward, (p - k) % 32)
    ensures |Run(Step, Motor(RunningBackward, p), Ticks(k)).outputs| == k
    ensures forall j :: 0 <= j < k ==> Run(Step, Motor(RunningBackward, p), Ticks(k)).outputs[j] == Moving((p - j) % 32)
  {
    RunningBackwardSweep(p, k);
    BehindIsDifference(p, k);
    forall j | 0 <= j < k
      ensures Behind(p, j) == (p - j) % 32
    {
      BehindIsDifference(p, j);
    }
  }

  /** The number of ticks a motor braking forward from `p` needs to stop:
      the steps up to the next full step, plus the tick that parks it. */
  function ForwardBrakeTicks(p: Position): (d: nat)
    ensures 1 <= d <= 8
    ensures d == 1 <==> p % 8 == 0
  {
    if p % 8 == 0 then 1 else 9 - p % 8
  }

  /** The number of ticks a motor braking backward from `p` needs to stop:
      the steps down to the previous full step, plus the tick that parks it. */
  function BackwardBrakeTicks(p: Position): (d: nat)
    ensures 1 <= d <= 8
    ensures d == 1 <==> p % 8 == 0
  {
    p % 8 + 1
  }

  /** Off a full step, one forward step brings the next full step one tick closer. */
  lemma ForwardBrakeTicksDecrease(p: Position)
    requires p % 8 != 0
    ensures ForwardBrakeTicks(Advance(p)) == ForwardBrakeTicks(p) - 1
  {
    if p % 8 == 7 {
      assert (p + 1) % 32 % 8 == 0;
    } else {
      assert (p + 1) % 32 % 8 == p % 8 + 1;
    }
  }

  /** Off a full step, one backward step brings the previous full step one
      tick closer, and it does not wrap below 0. */
  lemma BackwardBrakeTicksDecrease(p: Position)
    requires p % 8 != 0
    ensures Retreat(p) == p - 1
    ensures BackwardBrakeTicks(Retreat(p)) == BackwardBrakeTicks(p) - 1
  {
  }

  /** The next full step at or after `p`, wrapping from 32 to 0, is
      `ForwardBrakeTicks(p) - 1` positions ahead. */
  lemma NextFullStep(p: Position)
    ensures (p + ForwardBrakeTicks(p) - 1) % 32 % 8 == 0
  {
  }

  /** The position braking forward comes to rest on: the next full step at
      or after `p`, wrapping from 32 to 0. */
  lemma ForwardBrakeLanding(p: Position)
    ensures Ahead(p, ForwardBrakeTicks(p) - 1) == (p + ForwardBrakeTicks(p) - 1) % 32
    ensures Ahead(p, ForwardBrakeTicks(p) - 1) % 8 == 0
  {
    var d := ForwardBrakeTicks(p);
    AheadIsSum(p, d - 1);
    NextFullStep(p);
    assert p + (d - 1) == p + d - 1;
  }

  /** The position braking backward comes to rest on: the full step at or
      below `p`, never wrapping. */
  lemma BackwardBrakeLanding(p: Position)
    ensures Behind(p, BackwardBrakeTicks(p) - 1) == p - p % 8
    ensures (p - p % 8) % 8 == 0
  {
    BehindWithin(p, BackwardBrakeTicks(p) - 1);
  }

  /** On a full step, a tick while braking in either direction parks the motor. */
  lemma BrakingTickParks(s: State, p: Position)
    requires s == BrakingForward || s == BrakingBackward
    requires p % 8 == 0
    ensures Run(Step, Motor(s, p), [Tick]) == Trace(Motor(Stopped, p), [Parked(p)])
  {
  }

  /** When `k - 1` ticks leave a motor braking on a full step, the `k`-th
      tick parks it there and writes the parked commutation. */
  lemma LastTickParks(m: Motor, k: nat, s: State, last: Position)
    requires k > 0
    requires s == BrakingForward || s == BrakingBackward
    requires last % 8 == 0
    requires Run(Step, m, Ticks(k - 1)).last == Motor(s, last)
    ensures Run(Step, m, Ticks(k)).last == Motor(Stopped, last)
    ensures Run(Step, m, Ticks(k)).outputs == Run(Step, m, Ticks(k - 1)).outputs + [Parked(last)]
  {
    BrakingTransitions(last, Tick);
    TicksSnoc(k);
    RunSnoc(Step, m, Ticks(k - 1), Tick);
  }

  /** Off a full step, a tick while braking writes the moving commutation
      and steps on in the braking direction. */
  lemma BrakingTick(p: Position)
    requires p % 8 != 0
    ensures Step(Motor(BrakingForward, p), Tick) == Transition(Motor(BrakingForward, Advance(p)), Some(Moving(p)))
    ensures Step(Motor(BrakingBackward, p), Tick) == Transition(Motor(BrakingBackward, Retreat(p)), Some(Moving(p)))
  {
  }

  /** Before its last tick a motor braking forward keeps braking and sweeps
      forward, one position per tick, writing moving commutations. */
  lemma {:induction false} BrakingForwardSweep(p: Position, k: nat)
    requires k < ForwardBrakeTicks(p)
    ensures Run(Step, Motor(BrakingForward, p), Ticks(k)).last == Motor(BrakingForward, Ahead(p, k))
    ensures |Run(Step, Motor(BrakingForward, p), Ticks(k)).outputs| == k
    ensures SweepsUp(Moving, p, Run(Step, Motor(BrakingForward, p), Ticks(k)).outputs)
    decreases k
  {
    if k > 0 {
      ForwardBrakeTicksDecrease(p);
      BrakingTick(p);
      BrakingForwardSweep(Advance(p), k - 1);
      ExtendUp(BrakingForward, p, k);
    }
  }

  /** Before its last tick a motor braking backward keeps braking and sweeps
      backward, one position per tick, writing moving commutations. */
  lemma {:induction false} BrakingBackwardSweep(p: Position, k: nat)
    requires k < BackwardBrakeTicks(p)
    ensures Run(Step, Motor(BrakingBackward, p), Ticks(k)).last == Motor(BrakingBackward, Behind(p, k))
    ensures |Run(Step, Motor(BrakingBackward, p), Ticks(k)).outputs| == k
    ensures SweepsDown(Moving, p, Run(Step, Motor(BrakingBackward, p), Ticks(k)).outputs)
    decreases k
  {
    if k > 0 {
      BackwardBrakeTicksDecrease(p);
      BrakingTick(p);
      BrakingBackwardSweep(Retreat(p), k - 1);
      ExtendDown(BrakingBackward, p, k);
    }
  }

  /** Braking forward from `p`, if `d` ticks (no more than the brake
      bound) end on a full step, the motor halts there: the first `d - 1`
      ticks sweep forward writing moving commutations, and the last one
      parks the motor where the sweep ended. */
  lemma BrakingForwardHalts(p: Position, d: nat)
    requires 0 < d <= ForwardBrakeTicks(p)
    requires Ahead(p, d - 1) % 8 == 0
    ensures var m := Motor(BrakingForward, p);
      var head := Run(Step, m, Ticks(d - 1)).outputs;
      && Run(Step, m, Ticks(d)).last == Motor(Stopped, Ahead(p, d - 1))
      && Run(Step, m, Ticks(d)).outputs == head + [Parked(Ahead(p, d - 1))]
      && |head| == d - 1
      && SweepsUp(Moving, p, head)
  {
    BrakingForwardSweep(p, d - 1);
    LastTickParks(Motor(BrakingForward, p), d, BrakingForward, Ahead(p, d - 1));
  }

  /** Braking backward from `p`, if `d` ticks (no more than the brake
      bound) end on a full step, the motor halts there: the first `d - 1`
      ticks sweep backward writing moving commutations, and the last one
      parks the motor where the sweep ended. */
  lemma BrakingBackwardHalts(p: Position, d: nat)
    requires 0 < d <= BackwardBrakeTicks(p)
    requires Behind(p, d - 1) % 8 == 0
    ensures var m := Motor(BrakingBackward, p);
      var head := Run(Step, m, Ticks(d - 1)).outputs;
      && Run(Step, m, Ticks(d)).last == Motor(Stopped, Behind(p, d - 1))
      && Run(Step, m, Ticks(d)).outputs == head + [Parked(Behind(p, d - 1))]
      && |head| == d - 1
      && SweepsDown(Moving, p, head)
  {
    BrakingBackwardSweep(p, d - 1);
    LastTickParks(Motor(BrakingBackward, p), d, BrakingBackward, Behind(p, d - 1));
  }

  /** Braking forward from `p` stops after exactly `ForwardBrakeTicks(p)`
      ticks (at most eight), on the next full step at or after `p`; the
      ticks before write the moving commutations of the positions passed,
      and the last one writes the parked commutation of that step. */
  lemma BrakingForwardStops(p: Position)
    ensures var d := ForwardBrakeTicks(p);
      var r := Run(Step, Motor(BrakingForward, p), Ticks(d));
      && d <= 8
      && r.last == Motor(Stopped, (p + d - 1) % 32)
      && r.last.pas % 8 == 0
      && |r.outputs| == d
      && (forall j :: 0 <= j < d - 1 ==> r.outputs[j] == Moving((p + j) % 32))
      && r.outputs[d - 1] == Parked(r.last.pas)
    ensures forall k :: 0 <= k < ForwardBrakeTicks(p) ==>
      Run(Step, Motor(BrakingForward, p), Ticks(k)).last.state == BrakingForward
  {
    var d := ForwardBrakeTicks(p);
    var r := Run(Step, Motor(BrakingForward, p), Ticks(d));
    var head := Run(Step, Motor(BrakingForward, p), Ticks(d - 1)).outputs;
    ForwardBrakeLanding(p);
    BrakingForwardHalts(p, d);
    forall j | 0 <= j < d - 1
      ensures r.outputs[j] == Moving((p + j) % 32)
    {
      assert r.outputs[j] == head[j];
      AheadIsSum(p, j);
    }
    forall k | 0 <= k < d
      ensures Run(Step, Motor(BrakingForward, p), Ticks(k)).last.state == BrakingForward
    {
      BrakingForwardSweep(p, k);
    }
  }

  /** Braking backward from `p` stops after exactly `BackwardBrakeTicks(p)`
      ticks (at most eight), on the full step at or below `p`; the ticks
      before write the moving commutations of the positions passed, and the
      last one writes the parked commutation of that step. */
  lemma BrakingBackwardStops(p: Position)
    ensures var d := BackwardBrakeTicks(p);
      var r := Run(Step, Motor(BrakingBackward, p), Ticks(d));
      && d <= 8
      && r.last == Motor(Stopped, p - p % 8)
      && |r.outputs| == d
      && (forall j :: 0 <= j < d - 1 ==> r.outputs[j] == Moving((p - j) % 32))
      && r.outputs[d - 1] == Parked(p - p % 8)
    ensures forall k :: 0 <= k < BackwardBrakeTicks(p) ==>
      Run(Step, Motor(BrakingBackward, p), Ticks(k)).last.state == BrakingBackward
  {
    var d := BackwardBrakeTicks(p);
    var r := Run(Step, Motor(BrakingBackward, p), Ticks(d));
    var head := Run(Step, Motor(BrakingBackward, p), Ticks(d - 1)).outputs;
    BackwardBrakeLanding(p);
    BrakingBackwardHalts(p, d);
    forall j | 0 <= j < d - 1
      ensures r.outputs[j] == Moving((p - j) % 32)
    {
      assert r.outputs[j] == head[j];
      BehindIsDifference(p, j);
    }
    forall k | 0 <= k < d
      ensures Run(Step, Motor(BrakingBackward, p), Ticks(k)).last.state == BrakingBackward
    {
      BrakingBackwardSweep(p, k);
    }
  }

  /** The machine's invariant: a stopped motor sits on a full step. */
  predicate Aligned(m: Motor) {
    m.state == Stopped ==> m.pas % 8 == 0
  }

  /** From any motor satisfying the invariant, every event sequence leads to
      one satisfying it. */
  lemma {:induction false} AlignedInvariant(m: Motor, events: seq<Event>)
    requires Aligned(m)
    ensures Aligned(Run(Step, m, events).last)
    decreases |events|
  {
    if |events| > 0 {
      assert events == [events[0]] + events[1..];
      RunFirst(Step, m, events[0], events[1..]);
      StepProperties(m, events[0]);
      AlignedInvariant(Step(m, events[0]).next, events[1..]);
    }
  }

  /** The initial motor satisfies the invariant, so no event sequence can
      ever leave it stopped between two full steps. */
  lemma InitialAligned(events: seq<Event>)
    ensures Aligned(Initial)
    ensures Run(Step, Initial, events).last.state == Stopped ==> Run(Step, Initial, events).last.pas % 8 == 0
  {
    AlignedInvariant(Initial, events);
  }

  /** A reversal request while running forward does not reverse the motor:
      it keeps stepping forward to the next full step and stops there, at
      most one event and eight ticks later. */
  lemma ReversalStopsOnFullStep(p: Position)
    ensures var d := ForwardBrakeTicks(p);
      var r := Run(Step, Motor(RunningForward, p), [Backward] + Ticks(d));
      && r.last == Motor(Stopped, (p + d - 1) % 32)
      && r.last.pas % 8 == 0
      && |r.outputs| == d
  {
    var d := ForwardBrakeTicks(p);
    RunFirst(Step, Motor(RunningForward, p), Backward, Ticks(d));
    RunningTransitions(p, Backward);
    BrakingForwardStops(p);
  }

  /** The mirror image: an advance request while running backward keeps
      the motor stepping backward to the full step at or below `p`, where it
      stops after `p mod 8 + 1` ticks. */
  lemma ReversalStopsOnFullStepBackward(p: Position)
    ensures var d := BackwardBrakeTicks(p);
      var r := Run(Step, Motor(RunningBackward, p), [Forward] + Ticks(d));
      && r.last == Motor(Stopped, p - p % 8)
      && r.last.pas % 8 == 0
      && |r.outputs| == d
  {
    var d := BackwardBrakeTicks(p);
    RunFirst(Step, Motor(RunningBackward, p), Forward, Ticks(d));
    RunningTransitions(p, Forward);
    BrakingBackwardStops(p);
  }

  /** From the initial motor, a forward request followed by `k` ticks leaves
      the motor running forward on position `k mod 32` after `k` writes. */
  lemma ForwardThenTicks(k: nat)
    ensures Run(Step, Initial, [Forward] + Ticks(k)).last == Motor(RunningForward, k % 32)
    ensures |Run(Step, Initial, [Forward] + Ticks(k)).outputs| == k
  {
    RunFirst(Step, Initial, Forward, Ticks(k));
    StoppedTransitions(0, Forward);
    RunningForwardTicks(0, k);
  }

  /** In particular, a forward request followed by 40 ticks leaves the motor
      running forward on position 8 after 40 writes. */
  lemma ForwardThenFortyTicks()
    ensures Run(Step, Initial, [Forward] + Ticks(40)).last == Motor(RunningForward, 8)
    ensures |Run(Step, Initial, [Forward] + Ticks(40)).outputs| == 40
  {
    ForwardThenTicks(40);
  }
}

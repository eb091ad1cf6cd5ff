/**
 * The interrupt handler (`interruptionsHP`): a software divider turns one
 * timer interrupt in 26 into a tick, and the handler then feeds the motion
 * state machine the tick, a forward request (INT2) and a backward request
 * (INT1), in that order. The static divider `n` and the statics of
 * `machine` become an explicit `Controller`; the interrupt flags become
 * booleans.
 */
module Interrupts {
  import opened Wrappers
  import opened Commutation
  import opened Traces
  import opened Motion
  import opened MotionProperties

  /** Timer interrupts per tick: the divider counts through 0..25. */
  const FiringsPerTick: nat := 26

  /** Everything the handler keeps between calls: the divider `n` (a plain
      `char`, unsigned on this compiler) and the statics of `machine`. */
  datatype Controller = Controller(divider: Byte, motor: Motor)

  /** The interrupt flags the handler tests: TMR2IF, INT2IF and INT1IF. */
  datatype Flags = Flags(timer: bool, int2: bool, int1: bool)

  /** The divider after one timer interrupt, and whether it emitted a tick. */
  datatype Division = Division(counter: Byte, tick: bool)

  /** The divider after a number of timer interrupts, and how many ticks it emitted. */
  datatype Divisions = Divisions(counter: Byte, ticks: nat)

  /** What one or more handler calls leave behind: the controller, the
      events dispatched to `machine` in order, and the outputs written. */
  datatype Reaction = Reaction(controller: Controller, events: seq<Event>, outputs: seq<Output>)

  /** The statics' initial values: `n = 0`, and the motor stopped on
      position 0. */
  const Boot: Controller := Controller(0, Initial)

  /** The timer branch of the handler: a tick when the counter is 0 before
      it is incremented, then `n++` on a byte and the `n > 25` reset. */
  function Divide(n: Byte): (d: Division)
    ensures d.counter < FiringsPerTick
    ensures n < FiringsPerTick ==> d.counter == (n + 1) % FiringsPerTick
  {
    var incremented := (n + 1) % 256;
    Division(if incremented > 25 then 0 else incremented, n == 0)
  }

  /** `k` timer interrupts in a row, as seen by the divider alone. */
  function DivideRepeatedly(n: Byte, k: nat): (r: Divisions)
    ensures r.ticks <= k
    ensures k > 0 ==> r.counter < FiringsPerTick
    decreases k
  {
    if k == 0 then Divisions(n, 0)
    else
      var d := Divide(n);
      var rest := DivideRepeatedly(d.counter, k - 1);
      Divisions(rest.counter, rest.ticks + if d.tick then 1 else 0)
  }

  /** The arithmetic of one divider step: counting on from `c`, the
      counter after `n`, is counting from `n` with one interrupt fewer to
      go, and a tick is due exactly when `n` is 0. */
  lemma DivideStepArithmetic(n: nat, c: nat, k: nat)
    requires n < FiringsPerTick && k > 0
    requires c == (n + 1) % FiringsPerTick
    ensures (c + (k - 1)) % FiringsPerTick == (n + k) % FiringsPerTick
    ensures (c + (k - 1) + 25) / 26 - (c + 25) / 26 + (if n == 0 then 1 else 0)
         == (n + k + 25) / 26 - (n + 25) / 26
  {
    if n == 25 {
      assert c == 0;
    } else {
      assert c == n + 1;
    }
  }

  /** From a counter in range, `k` timer interrupts leave the counter at
      `(n + k) mod 26` and tick once for every multiple of 26 among
      `n, n + 1, ..., n + k - 1`: on the first interrupt seen with the
      counter at 0, and every 26 interrupts after that. */
  lemma {:induction false} DividerCount(n: Byte, k: nat)
    requires n < FiringsPerTick
    ensures DivideRepeatedly(n, k).counter == (n + k) % FiringsPerTick
    ensures DivideRepeatedly(n, k).ticks == (n + k + 25) / 26 - (n + 25) / 26
    decreases k
  {
    if k > 0 {
      var d := Divide(n);
      var rest := DivideRepeatedly(d.counter, k - 1);
      assert DivideRepeatedly(n, k) == Divisions(rest.counter, rest.ticks + if d.tick then 1 else 0);
      assert d.tick <==> n == 0;
      DividerCount(d.counter, k - 1);
      DivideStepArithmetic(n, d.counter, k);
    }
  }

  /** From the initial counter, `k` timer interrupts give `ceil(k / 26)`
      ticks: the first interrupt ticks, then the 27th, the 53rd, and so on. */
  lemma DividerFromBoot(k: nat)
    ensures DivideRepeatedly(Boot.divider, k).ticks == (k + 25) / 26
    ensures k > 0 ==> DivideRepeatedly(Boot.divider, k).ticks >= 1
  {
    DividerCount(0, k);
  }

  /** For any counter in 0..25, 26 more timer interrupts give exactly one
      more tick and leave the counter where it was. */
  lemma DividerPeriod(n: Byte, k: nat)
    requires n < FiringsPerTick
    ensures DivideRepeatedly(n, k + 26).ticks == DivideRepeatedly(n, k).ticks + 1
    ensures DivideRepeatedly(n, k + 26).counter == DivideRepeatedly(n, k).counter
  {
    DividerCount(n, k);
    DividerCount(n, k + 26);
    ShiftByPeriod(n, k);
  }

  /** Adding a whole period to the firings changes the remainder not at
      all, and the quotient by one. */
  lemma ShiftByPeriod(n: nat, k: nat)
    ensures (n + (k + 26)) % 26 == (n + k) % 26
    ensures (n + (k + 26) + 25) / 26 == (n + k + 25) / 26 + 1
  {
  }

  /** The motor of a reaction, and the outputs it holds, are those of
      running `machine` from `m` on the reaction's events. */
  predicate Replays(m: Motor, r: Reaction) {
    && r.controller.motor == Run(Step, m, r.events).last
    && r.outputs == Run(Step, m, r.events).outputs
  }

  /** One call of `machine` from inside the handler. */
  function Dispatch(r: Reaction, e: Event): (r': Reaction)
    ensures r'.controller.divider == r.controller.divider
    ensures r'.events == r.events + [e]
  {
    var t := Step(r.controller.motor, e);
    Reaction(r.controller.(motor := t.next), r.events + [e], r.outputs + ToSeq(t.output))
  }

  /** Dispatching one more event continues the run of `machine`. */
  lemma DispatchExtendsRun(m: Motor, r: Reaction, e: Event)
    requires Replays(m, r)
    ensures Replays(m, Dispatch(r, e))
  {
    RunSnoc(Step, m, r.events, e);
  }

  /** The order in which the handler dispatches events: the tick first,
      then INT2's forward request, then INT1's backward request. */
  function Rank(e: Event): nat {
    match e
    case Tick => 0
    case Forward => 1
    case Backward => 2
    case Stop => 3
  }

  /** The events one handler call dispatches, in the order it dispatches
      them: the divider's tick, then INT2's forward request, then INT1's
      backward request. A stop request is never among them. */
  function HandlerEvents(n: Byte, f: Flags): (es: seq<Event>)
    ensures Tick in es <==> f.timer && n == 0
    ensures Forward in es <==> f.int2
    ensures Backward in es <==> f.int1
    ensures Stop !in es
    ensures forall i, j :: 0 <= i < j < |es| ==> Rank(es[i]) < Rank(es[j])
  {
    (if f.timer && n == 0 then [Tick] else [])
    + (if f.int2 then [Forward] else [])
    + (if f.int1 then [Backward] else [])
  }

  /** One call of the interrupt handler with the given flags raised. */
  function Handle(c: Controller, f: Flags): (r: Reaction)
    ensures f.timer ==> r.controller.divider == Divide(c.divider).counter
    ensures !f.timer ==> r.controller.divider == c.divider
    ensures r.events == HandlerEvents(c.divider, f)
  {
    var afterTimer :=
      if f.timer then
        var d := Divide(c.divider);
        var counted := Reaction(c.(divider := d.counter), [], []);
        if d.tick then Dispatch(counted, Tick) else counted
      else Reaction(c, [], []);
    var afterInt2 := if f.int2 then Dispatch(afterTimer, Forward) else afterTimer;
    if f.int1 then Dispatch(afterInt2, Backward) else afterInt2
  }

  /** A handler call moves the motor, and writes, exactly as `machine` does
      when fed the call's events one by one. */
  lemma HandleRunsMachine(c: Controller, f: Flags)
    ensures Replays(c.motor, Handle(c, f))
  {
    var start := Reaction(c, [], []);
    var afterTimer :=
      if f.timer then
        var d := Divide(c.divider);
        var counted := Reaction(c.(divider := d.counter), [], []);
        if d.tick then Dispatch(counted, Tick) else counted
      else start;
    if f.timer && Divide(c.divider).tick {
      DispatchExtendsRun(c.motor, Reaction(c.(divider := Divide(c.divider).counter), [], []), Tick);
    }
    assert Replays(c.motor, afterTimer);
    var afterInt2 := if f.int2 then Dispatch(afterTimer, Forward) else afterTimer;
    if f.int2 {
      DispatchExtendsRun(c.motor, afterTimer, Forward);
    }
    if f.int1 {
      DispatchExtendsRun(c.motor, afterInt2, Backward);
    }
  }

  /** Both buttons in the same call on a stopped motor: the forward request
      is served first and starts the motor, and the backward request that
      follows only makes it brake. */
  lemma BothButtonsBrake(n: Byte, p: Position)
    ensures Handle(Controller(n, Motor(Stopped, p)), Flags(false, true, true)).controller.motor
         == Motor(BrakingForward, p)
    ensures Handle(Controller(n, Motor(Stopped, p)), Flags(false, true, true)).outputs == []
  {
  }

  /** Successive handler calls, one per set of raised flags. */
  function Serve(c: Controller, fs: seq<Flags>): (r: Reaction)
    ensures c.divider < FiringsPerTick ==> r.controller.divider < FiringsPerTick
    ensures Stop !in r.events
    decreases |fs|
  {
    if |fs| == 0 then Reaction(c, [], [])
    else
      var h := Handle(c, fs[0]);
      var rest := Serve(h.controller, fs[1..]);
      Reaction(rest.controller, h.events + rest.events, h.outputs + rest.outputs)
  }

  /** Any number of handler calls move the motor, and write, exactly as
      `machine` does when fed all their events in order. */
  lemma {:induction false} ServeRunsMachine(c: Controller, fs: seq<Flags>)
    ensures Replays(c.motor, Serve(c, fs))
    decreases |fs|
  {
    if |fs| > 0 {
      var h := Handle(c, fs[0]);
      HandleRunsMachine(c, fs[0]);
      ServeRunsMachine(h.controller, fs[1..]);
      RunAppend(Step, c.motor, h.events, Serve(h.controller, fs[1..]).events);
    }
  }

  /** A motor that is stopped only on full steps stays so over any number
      of handler calls. */
  lemma ServeKeepsAligned(c: Controller, fs: seq<Flags>)
    requires Aligned(c.motor)
    ensures Aligned(Serve(c, fs).controller.motor)
  {
    ServeRunsMachine(c, fs);
    AlignedInvariant(c.motor, Serve(c, fs).events);
  }

  /** From boot, whatever interrupts arrive, the divider stays in 0..25 and
      the motor is stopped only on a full step. */
  lemma BootInvariant(fs: seq<Flags>)
    ensures Serve(Boot, fs).controller.divider < FiringsPerTick
    ensures Aligned(Serve(Boot, fs).controller.motor)
  {
    ServeKeepsAligned(Boot, fs);
  }

  /** `k` handler calls in which only the timer flag is raised. */
  function TimerOnly(k: nat): (fs: seq<Flags>)
    ensures |fs| == k
    ensures forall i :: 0 <= i < k ==> fs[i] == Flags(true, false, false)
  {
    seq(k, _ => Flags(true, false, false))
  }

  /** With only the timer flag raised, the handler dispatches nothing but
      the divider's ticks, and counts as the divider alone does. */
  lemma {:induction false} TimerOnlyServe(c: Controller, k: nat)
    ensures Serve(c, TimerOnly(k)).events == Ticks(DivideRepeatedly(c.divider, k).ticks)
    ensures Serve(c, TimerOnly(k)).controller.divider == DivideRepeatedly(c.divider, k).counter
    decreases k
  {
    if k > 0 {
      var fs := TimerOnly(k);
      var h := Handle(c, fs[0]);
      var d := Divide(c.divider);
      var first := if d.tick then 1 else 0;
      assert fs[1..] == TimerOnly(k - 1);
      var rest := Serve(h.controller, fs[1..]);
      var later := DivideRepeatedly(d.counter, k - 1);
      TimerOnlyServe(h.controller, k - 1);
      assert Serve(c, fs) == Reaction(rest.controller, h.events + rest.events, h.outputs + rest.outputs);
      assert DivideRepeatedly(c.divider, k) == Divisions(later.counter, later.ticks + first);
      assert h.events == Ticks(first);
      TicksAdd(first, later.ticks);
    }
  }

  /** Ticks followed by ticks are ticks. */
  lemma TicksAdd(a: nat, b: nat)
    ensures Ticks(a) + Ticks(b) == Ticks(a + b)
  {
  }

  /** From boot, timer interrupts alone leave the motor stopped on
      position 0 and write nothing. */
  lemma TimerAloneKeepsMotorParked(k: nat)
    ensures Serve(Boot, TimerOnly(k)).controller.motor == Initial
    ensures Serve(Boot, TimerOnly(k)).outputs == []
  {
    var r := Serve(Boot, TimerOnly(k));
    ServeRunsMachine(Boot, TimerOnly(k));
    TimerOnlyServe(Boot, k);
    StoppedIgnoresStopsAndTicks(0, r.events);
  }

  /** The output `main` writes once at line 287
      (`commutationStationnement(0)`): the motor held on position 0, the
      first bridge line at half duty, the parked output of the initial
      motor. */
  function BootOutput(): (o: Output)
    ensures o == Output(1, 16)
    ensures o == Parked(Boot.motor.pas)
  {
    Parked(0)
  }
}

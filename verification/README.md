# Stepper motor controller: a Dafny model

This project models the controller in `controleur-stepper.c`. The program
runs on a PIC18 and drives a stepper motor through two bridges. The motor is
controlled by a PWM duty and a four-line bridge pattern. The model covers
the part of the program that decides what to write:

- **Commutation** (`Commutation`, file `commutation.dfy`). A step position
  `pas` in 0..31 selects two values. `commutationStationnement` gives the
  parked output and `commutationDeplacement` gives the moving output. Each
  output is a bridge pattern (PORTA) and a duty (CCPR3L). Both writes of one
  call become a single `Output(porta, duty)` value.
- **Motion state machine** (`Motion`, file `motion.dfy`). `machine` becomes
  the pure function `Step`. It takes the two statics `etat` and `pas` as a
  `Motor` value, plus an event, and returns the next `Motor` and the output
  written, if any. The French identifiers map to English ones:
  - states: ARRET = `Stopped`, MARCHE_AVANT = `RunningForward`,
    FREIN_AVANT = `BrakingForward`, MARCHE_ARRIERE = `RunningBackward`,
    FREIN_ARRIERE = `BrakingBackward`;
  - events: AVANCE = `Forward`, RECULE = `Backward`, ARRETE = `Stop`,
    TICTAC = `Tick`.
- **Interrupt handler** (`Interrupts`, file `interrupts.dfy`). This is the
  divider and dispatch logic of `interruptionsHP`. A static counter `n`
  turns timer interrupts into ticks. The handler then dispatches the tick,
  the INT2 forward request and the INT1 backward request, in that order.
  The flags are booleans and the statics are a `Controller` value.
- **Boot state**: `etat = ARRET`, `pas = 0`, `n = 0`, and the parked output
  `commutationStationnement(0)` written by `main`.

Two helper modules support the model:
- `traces.dfy` (`Traces`): runs a deterministic machine over a sequence of
  inputs and collects the outputs it writes.
- `wrappers.dfy` (`Wrappers`): an `Option` type.

The properties are collected in `motion_properties.dfy` (`MotionProperties`)
and in `interrupts.dfy`:
- the transition table, event by event;
- the wrap-around of `pas`, including the unsigned underflow of `pas--`;
- the sweep written by running and braking;
- braking that stops on a full step after exactly the predicted number of
  ticks, eight at most;
- the invariant that a stopped motor sits on a full step;
- the divider's count of ticks;
- the handler's dispatch order;
- the correspondence between handler calls and runs of `machine`.

## Model

| member | source | states |
|---|---|---|
| Commutation.Phase | controleur-stepper.c:27-30 | The phase of any position in 0..31 indexes both four-entry pattern tables in bounds. |
| Commutation.MicroIndex | controleur-stepper.c:52-55 | The micro-step of any position indexes the sixteen-entry cosine table in bounds. |
| Commutation.PhaseIsShift | controleur-stepper.c:29 | For every position, the phase equals the 8-bit shift `pas >> 3` that the code applies. |
| Commutation.MicroIndexIsMask | controleur-stepper.c:54 | For every position, the micro-step equals the 8-bit mask `pas & 0x0F` that the code applies. |
| Commutation.Parked | controleur-stepper.c:16-31 | `commutationStationnement` writes the half duty 16 and a pattern with exactly one bridge line set. |
| Commutation.Moving | controleur-stepper.c:38-61 | `commutationDeplacement` writes a duty of at most 32, within the PWM period, and a pattern made of the parked line of the position's phase plus that of the next phase. |
| Commutation.ParkedOutput | controleur-stepper.c:16-31 | The parked output has duty 16 and pattern `{1,4,2,8}[pas / 8]`. That pattern sets exactly one bridge line. |
| Commutation.MovingOutput | controleur-stepper.c:38-61 | The moving output has duty `cos[pas mod 16]`, at most 32. Its pattern is `{5,6,10,9}[pas / 8]`, which combines the parked lines of the position's phase and of the next phase. |
| Commutation.CosSymmetric | controleur-stepper.c:40-43 | `cos[i] == cos[16 - i]` for 1 <= i <= 15. |
| Commutation.CosInRange | controleur-stepper.c:40-43 | Every duty in the table lies in 0..32, within the PWM period. |
| Commutation.CosQuarterWave | controleur-stepper.c:40-43 | The table starts at 32 and reaches 0 at entry 8. It does not increase over the first eight entries. Entries eight apart sum to 32. |
| Commutation.MovingDutiesInQuadrature | controleur-stepper.c:38-61 | The moving duties of two positions a quarter cycle apart (8 positions) sum to the full period of 32. |
| Commutation.QuarterTurn | controleur-stepper.c:52-55 | Eight positions further on, the micro-step is eight entries further on the table, modulo 16. |
| Commutation.ParkedAndMovingDistinct | controleur-stepper.c:16-61 | No parked pattern equals any moving pattern. |
| Commutation.ParkedPhases | controleur-stepper.c:16-31 | Two positions park on the same output exactly when they share a phase (`pas >> 3`). |
| Motion.Advance | controleur-stepper.c:122-125 | `pas++` on an `unsigned char` followed by the `> 31` check moves a position in 0..31 to `(pas + 1) mod 32`, so 31 wraps to 0. |
| Motion.Retreat | controleur-stepper.c:162-165 | `pas--` on an `unsigned char` (0 underflows to 255) followed by the `> 31` check moves a position to `(pas + 31) mod 32`, so 0 wraps to 31. |
| Motion.Step | controleur-stepper.c:97-199 | A call of `machine` writes an output exactly when the event is a tick and the motor is not stopped. |
| MotionProperties.StoppedTransitions | controleur-stepper.c:105-114 | In ARRET, AVANCE starts running forward and RECULE starts running backward. ARRETE and TICTAC change nothing. None of them moves `pas` or writes. |
| MotionProperties.RunningTransitions | controleur-stepper.c:118-172 | Running, a tick writes the moving output and steps once in the running direction. The opposite direction or ARRETE starts braking without moving or writing. The same direction is ignored. |
| MotionProperties.BrakingTransitions | controleur-stepper.c:136-197 | The `switch(pas)` cases are exactly the multiples of 8. Braking on a full step, a tick writes the parked output and stops in place. Braking elsewhere, a tick writes the moving output and steps on. Every other event, a resume request included, is ignored. |
| MotionProperties.StepProperties | controleur-stepper.c:104-198 | For any state and event, `pas` moves by at most one step, only on a tick, and only in the current direction. The motor comes to rest only on a full step. A direction is never reversed without stopping first. |
| MotionProperties.StoppedIgnoresStopsAndTicks | controleur-stepper.c:105-114 | Any sequence of ARRETE and TICTAC leaves a stopped motor unchanged and writes nothing, so repeating ARRETE is idempotent. |
| MotionProperties.BrakingIgnoresCommands | controleur-stepper.c:136-197 | Any tick-free sequence of events leaves a braking motor unchanged and writes nothing. |
| MotionProperties.AheadIsSum | controleur-stepper.c:122-125 | `k` successive forward steps from `p` reach `(p + k) mod 32`. |
| MotionProperties.BehindIsDifference | controleur-stepper.c:162-165 | `k` successive backward steps from `p` reach `(p - k) mod 32`. |
| MotionProperties.BehindWithin | controleur-stepper.c:189-192 | Up to `p` backward steps from `p` never wrap: they reach `p - k`. |
| MotionProperties.RunningForwardSweep | controleur-stepper.c:118-126 | `k` ticks running forward keep the motor running, step it `k` times, and write the moving output of each position it leaves, in order. |
| MotionProperties.RunningBackwardSweep | controleur-stepper.c:158-166 | `k` ticks running backward keep the motor running, step it back `k` times, and write the moving output of each position it leaves, in order. |
| MotionProperties.RunningForwardTicks | controleur-stepper.c:118-126 | After `k` ticks running forward from `p`, `pas` is `(p + k) mod 32`, and tick `j` wrote the moving output of `(p + j) mod 32`. |
| MotionProperties.RunningBackwardTicks | controleur-stepper.c:158-166 | After `k` ticks running backward from `p`, `pas` is `(p - k) mod 32`, and tick `j` wrote the moving output of `(p - j) mod 32`. |
| MotionProperties.ForwardBrakeTicks | controleur-stepper.c:136-157 | Braking forward needs between 1 and 8 ticks to stop. It needs 1 exactly when it is already on a full step. |
| MotionProperties.BackwardBrakeTicks | controleur-stepper.c:176-197 | Braking backward needs between 1 and 8 ticks to stop. It needs 1 exactly when it is already on a full step. |
| MotionProperties.ForwardBrakeTicksDecrease | controleur-stepper.c:147-153 | Off a full step, one forward step brings the stop one tick closer. |
| MotionProperties.BackwardBrakeTicksDecrease | controleur-stepper.c:187-193 | Off a full step, one backward step does not wrap, and it brings the stop one tick closer. |
| MotionProperties.ForwardBrakeLanding | controleur-stepper.c:139-153 | Braking forward comes to rest on a full step: the next multiple of 8 at or after `p`, with 32 wrapping to 0. |
| MotionProperties.BackwardBrakeLanding | controleur-stepper.c:179-193 | Braking backward comes to rest on the multiple of 8 at or below `p`. |
| MotionProperties.BrakingTickParks | controleur-stepper.c:139-146 | On a full step, one tick in either braking state stops the motor in place and writes only the parked output. |
| MotionProperties.LastTickParks | controleur-stepper.c:139-146 | Ticks that leave a motor braking on a full step are followed by a last tick. That tick stops the motor there and appends the parked output. |
| MotionProperties.BrakingTick | controleur-stepper.c:147-153 | Off a full step, a tick in either braking state writes the moving output and steps in the braking direction. |
| MotionProperties.BrakingForwardSweep | controleur-stepper.c:147-153 | Fewer ticks than the brake count keep the motor braking forward. They sweep it forward and write moving outputs. |
| MotionProperties.BrakingBackwardSweep | controleur-stepper.c:187-193 | Fewer ticks than the brake count keep the motor braking backward. They sweep it backward and write moving outputs. |
| MotionProperties.BrakingForwardHalts | controleur-stepper.c:136-157 | Braking forward, `d` ticks that land on a full step stop the motor there. The ticks before write the forward sweep and the last writes the parked output. |
| MotionProperties.BrakingBackwardHalts | controleur-stepper.c:176-197 | Braking backward, `d` ticks that land on a full step stop the motor there. The ticks before write the backward sweep and the last writes the parked output. |
| MotionProperties.BrakingForwardStops | controleur-stepper.c:136-157 | From FREIN_AVANT at `p`, exactly `((8 - p mod 8) mod 8) + 1` ticks (at most 8) reach ARRET. It stops on the next full step, after the moving outputs of the positions passed and then the parked output. Every shorter run of ticks is still braking. |
| MotionProperties.BrakingBackwardStops | controleur-stepper.c:176-197 | From FREIN_ARRIERE at `p`, exactly `p mod 8 + 1` ticks (at most 8) reach ARRET. It stops on `p - p mod 8`, after the moving outputs of the positions passed and then the parked output. Every shorter run of ticks is still braking. |
| MotionProperties.AlignedInvariant | controleur-stepper.c:104-198 | `etat == ARRET ==> pas mod 8 == 0` holds after any event sequence that starts from a state satisfying it. |
| MotionProperties.InitialAligned | controleur-stepper.c:99-102 | The initial statics satisfy the invariant, so the motor is only ever stopped on a full step. |
| MotionProperties.ReversalStopsOnFullStep | controleur-stepper.c:127-157 | RECULE while running forward does not reverse. The motor goes on to the next full step and stops there after the predicted number of ticks. |
| MotionProperties.ReversalStopsOnFullStepBackward | controleur-stepper.c:158-197 | AVANCE while running backward does not reverse. The motor goes on to the full step at or below `p` and stops there after `p mod 8 + 1` ticks, with that many writes. |
| MotionProperties.ForwardThenTicks | controleur-stepper.c:105-126 | From boot, AVANCE and then `k` ticks leave the motor running forward at `k mod 32`, after `k` writes. |
| MotionProperties.ForwardThenFortyTicks | controleur-stepper.c:105-126 | From boot, AVANCE and then 40 ticks leave the motor running forward at position 8, after 40 writes. |
| Interrupts.Divide | controleur-stepper.c:209-218 | After `n++` on a byte and the `n > 25` reset, the counter is in 0..25, whatever it was before. From 0..25 it is `(n + 1) mod 26`. |
| Interrupts.DivideRepeatedly | controleur-stepper.c:209-218 | `k` timer interrupts emit at most `k` ticks and leave the counter in 0..25. |
| Interrupts.DividerCount | controleur-stepper.c:206-218 | From a counter `n` in 0..25, `k` timer interrupts leave it at `(n + k) mod 26`. They tick once per multiple of 26 among `n .. n + k - 1`. |
| Interrupts.DividerFromBoot | controleur-stepper.c:206-218 | From `n = 0`, `k` timer interrupts give `ceil(k / 26)` ticks, so the very first interrupt ticks. |
| Interrupts.DividerPeriod | controleur-stepper.c:209-218 | For any counter in 0..25, 26 more timer interrupts give exactly one more tick and the same counter. |
| Interrupts.Dispatch | controleur-stepper.c:212-227 | A call of `machine` inside the handler leaves the divider alone and appends its event to those dispatched. |
| Interrupts.DispatchExtendsRun | controleur-stepper.c:212-227 | Dispatching one more event continues the run of `machine`: the motor and the outputs are those of the longer run. |
| Interrupts.HandlerEvents | controleur-stepper.c:204-228 | A handler call dispatches a tick exactly when TMR2IF is set and `n == 0`. It dispatches AVANCE exactly when INT2IF is set and RECULE exactly when INT1IF is set. It never dispatches ARRETE, and it keeps the order tick, AVANCE, RECULE. |
| Interrupts.Handle | controleur-stepper.c:204-228 | The handler advances the divider only when TMR2IF is set, and dispatches exactly those events. |
| Interrupts.HandleRunsMachine | controleur-stepper.c:204-228 | A handler call moves the motor, and writes, exactly as `machine` does when fed the call's events in order. |
| Interrupts.BothButtonsBrake | controleur-stepper.c:221-227 | With both INT2 and INT1 set on a stopped motor, AVANCE is served first and starts the motor. RECULE then only makes it brake forward, and nothing is written. |
| Interrupts.Serve | controleur-stepper.c:204-228 | Over successive handler calls the divider stays in 0..25, and ARRETE is never dispatched. |
| Interrupts.ServeRunsMachine | controleur-stepper.c:204-228 | Any number of handler calls move the motor, and write, exactly as `machine` does on all their events in order. |
| Interrupts.ServeKeepsAligned | controleur-stepper.c:204-228 | Handler calls preserve the invariant that a stopped motor sits on a full step. |
| Interrupts.BootInvariant | controleur-stepper.c:204-228 | From boot, after any handler calls, the divider is in 0..25 and a stopped motor sits on a full step. |
| Interrupts.TimerOnlyServe | controleur-stepper.c:209-218 | With only TMR2IF set, the handler dispatches nothing but the divider's ticks, and its counter follows the divider alone. |
| Interrupts.TimerAloneKeepsMotorParked | controleur-stepper.c:209-213 | From boot, timer interrupts alone leave the motor stopped on position 0, and nothing is written. |
| Interrupts.BootOutput | controleur-stepper.c:287 | The output `main` writes at line 287 is `Output(1, 16)`: the first bridge line at half duty, the parked output of the boot motor. |

## Left out

- Peripheral setup in `main` (lines 237-284) is not modelled because it is
  only register configuration: analog disable, TRIS and PORT
  initialisation, Timer2 and CCP3 setup, pull-ups, edge selection and
  priority bits. The `PORTA = 9` at line 256 is one of these writes, and
  `commutationStationnement(0)` at line 287 overwrites it, so only the
  latter is modelled, as `BootOutput`.
- Interrupts.BootOutput: does not place the boot write among the handler's
  writes. Interrupts are already enabled at lines 282-283, four lines
  before `commutationStationnement(0)` at line 287, so a handler call that
  lands in between (a pending INT2IF, then a timer interrupt with `n == 0`)
  can write a moving output that line 287 then overwrites with
  `Parked(0)`. Timing is abstracted, so the model does not say when the
  boot write happens relative to handler calls. Line 287 changes neither
  the divider nor the statics of `machine`, so `Serve(Boot, ...)` still
  gives the state and the handler's own writes for any sequence of calls.
- Clearing of the interrupt flags (lines 210, 222, 226) is not modelled.
  The flags are inputs to each handler call.
- The hardware meaning of PORTA and CCPR3L is not modelled. An output is
  the pair of values written, not what the bridges and the PWM make of it.
- Interrupt priority, nesting, preemption, latency and timing are not
  modelled, because they are real-time concerns. Handler calls are taken
  one at a time. The source comments mention INT0 and low priority, while
  the code handles INT1 and INT2 at high priority; the model follows the
  code.
- The `char` parameter of `commutationDeplacement` (line 38) is not
  modelled as signed. Every position the machine holds is in 0..31, where
  signed and unsigned readings agree. The divider `n` (a plain `char`,
  line 206) is likewise an unsigned byte, and it never leaves 0..25.
- The divider ticks on the timer interrupt that finds `n == 0`. That is
  the first interrupt after boot, then the 27th, the 53rd, and so on. It
  does not tick on the 26th interrupt of each group. The model follows the
  code (`Interrupts.Divide`, `Interrupts.DividerFromBoot`).
- The infinite idle loop at line 290 has no behaviour to model.

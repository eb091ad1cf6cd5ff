/**
 * The motion state machine (`machine`). Its two hidden statics, the state
 * and the step position `pas`, become an explicit `Motor` value, and one
 * call of `machine` becomes the pure function `Step` that returns the next
 * motor and the output it writes, if any.
 */
module Motion {
  import opened Wrappers
  import opened Commutation
  import opened Traces

  /** `enum Etat`: ARRET, MARCHE_AVANT, FREIN_AVANT, MARCHE_ARRIERE, FREIN_ARRIERE. */
  datatype State = Stopped | RunningForward | BrakingForward | RunningBackward | BrakingBackward

  /** `enum Evenement`: AVANCE, RECULE, ARRETE, TICTAC. */
  datatype Event = Forward | Backward | Stop | Tick

  /** The statics of `machine`: its state and its position. The position is
      an `unsigned char` that the wrap-around checks keep within 0..31. */
  datatype Motor = Motor(state: State, pas: Position)

  /** The statics' initial values: stopped on position 0. */
  const Initial: Motor := Motor(Stopped, 0)

  /** True for the two states that step forward on a tick. */
  predicate Forwards(s: State) {
    s == RunningForward || s == BrakingForward
  }

  /** True for the two states that step backward on a tick. */
  predicate Backwards(s: State) {
    s == RunningBackward || s == BrakingBackward
  }

  /** `pas++` on an `unsigned char`, then the `pas > 31` check that wraps to 0. */
  function Advance(pas: Byte): (r: Position)
    ensures pas <= 31 ==> r == (pas + 1) % 32
  {
    var incremented := (pas + 1) % 256;
    if incremented > 31 then 0 else incremented
  }

  /** `pas--` on an `unsigned char`, where 0 underflows to 255, then the
      `pas > 31` check that turns any out-of-range value into 31. */
  function Retreat(pas: Byte): (r: Position)
    ensures pas <= 31 ==> r == (pas + 31) % 32
  {
    var decremented := (pas - 1) % 256;
    if decremented > 31 then 31 else decremented
  }

  /** The `switch(pas)` of the braking states: a full step has been reached. */
  predicate OnFullStep(pas: Byte) {
    pas == 0 || pas == 8 || pas == 16 || pas == 24
  }

  /** One call of `machine` with the given event. */
  function Step(m: Motor, e: Event): (t: Transition<Motor, Output>)
    ensures t.output.Some? <==> e == Tick && m.state != Stopped
  {
    match m.state
    case Stopped =>
      (match e
       case Forward => Transition(Motor(RunningForward, m.pas), None)
       case Backward => Transition(Motor(RunningBackward, m.pas), None)
       case _ => Transition(m, None))
    case RunningForward =>
      (match e
       case Tick => Transition(Motor(RunningForward, Advance(m.pas)), Some(Moving(m.pas)))
       case Backward => Transition(Motor(BrakingForward, m.pas), None)
       case Stop => Transition(Motor(BrakingForward, m.pas), None)
       case Forward => Transition(m, None))
    case BrakingForward =>
      (match e
       case Tick =>
         if OnFullStep(m.pas) then Transition(Motor(Stopped, m.pas), Some(Parked(m.pas)))
         else Transition(Motor(BrakingForward, Advance(m.pas)), Some(Moving(m.pas)))
       case _ => Transition(m, None))
    case RunningBackward =>
      (match e
       case Tick => Transition(Motor(RunningBackward, Retreat(m.pas)), Some(Moving(m.pas)))
       case Forward => Transition(Motor(BrakingBackward, m.pas), None)
       case Stop => Transition(Motor(BrakingBackward, m.pas), None)
       case Backward => Transition(m, None))
    case BrakingBackward =>
      (match e
       case Tick =>
         if OnFullStep(m.pas) then Transition(Motor(Stopped, m.pas), Some(Parked(m.pas)))
         else Transition(Motor(BrakingBackward, Retreat(m.pas)), Some(Moving(m.pas)))
       case _ => Transition(m, None))
  }

  /** `k` consecutive ticks. */
  function Ticks(k: nat): (s: seq<Event>)
    ensures |s| == k
    ensures forall i :: 0 <= i < k ==> s[i] == Tick
  {
    seq(k, _ => Tick)
  }
}

/**
 * The commutation engine: a step position in [0, 31] selects a bridge
 * pattern (the value written to PORTA) and a PWM duty (the value written to
 * CCPR3L). The high two bits of the position choose one of four bridge
 * phases; the low four bits choose a point on a precomputed cosine table.
 */
module Commutation {

  /** An 8-bit unsigned register or `unsigned char` variable. */
  type Byte = x: int | 0 <= x < 256

  /** A position in the 32-step commutation cycle: the range the controller
      keeps `pas` in, and the range its tables can be indexed with. */
  type Position = p: Byte | p <= 31

  /** One simultaneous write of the bridge pattern and the PWM duty. */
  datatype Output = Output(porta: Byte, duty: Byte)

  /** Bridge patterns while parked: one bridge line active per phase. */
  const ParkedPatterns: seq<Byte> := [1, 4, 2, 8]

  /** Bridge patterns while moving: two bridge lines active per phase. */
  const MovingPatterns: seq<Byte> := [5, 6, 10, 9]

  /** Duty values for the sixteen micro-steps of one half-period, out of a period of 32. */
  const Cos: seq<Byte> := [32, 31, 27, 22, 16, 10, 5, 1, 0, 1, 5, 10, 16, 22, 27, 31]

  /** The duty that holds the rotor on a full step without turning it (50%). */
  const ParkedDuty: Byte := 16

  /** The bridge phase of a position: its two high bits, `pas >> 3`. */
  function Phase(pas: Position): (k: nat)
    ensures k < |ParkedPatterns| && k < |MovingPatterns|
  {
    pas / 8
  }

  /** The micro-step of a position within a half-period: its four low bits, `pas & 0x0F`. */
  function MicroIndex(pas: Byte): (i: nat)
    ensures i < |Cos|
  {
    pas % 16
  }

  /** The arithmetic phase agrees with the shift the controller applies to
      the 8-bit position. */
  lemma PhaseIsShift(pas: Position)
    ensures Phase(pas) == ((pas as bv8) >> 3) as int
  {
  }

  /** The arithmetic micro-step agrees with the mask the controller applies
      to the 8-bit position. */
  lemma MicroIndexIsMask(pas: Position)
    ensures MicroIndex(pas) == ((pas as bv8) & 0x0F) as int
  {
  }

  /** True when exactly one of the four bridge lines is set. */
  predicate OneHot(pattern: Byte) {
    pattern == 1 || pattern == 2 || pattern == 4 || pattern == 8
  }

  /** The parked commutation for position `pas` (`commutationStationnement`):
      half duty on exactly one bridge line. */
  function Parked(pas: Position): (o: Output)
    ensures o.duty == ParkedDuty
    ensures OneHot(o.porta)
  {
    Output(ParkedPatterns[Phase(pas)], ParkedDuty)
  }

  /** The moving commutation for position `pas` (`commutationDeplacement`):
      a duty within the period, on the bridge lines of the position's phase
      and of the next one. */
  function Moving(pas: Position): (o: Output)
    ensures o.duty <= 32
    ensures o.porta == ParkedPatterns[Phase(pas)] + ParkedPatterns[(Phase(pas) + 1) % 4]
  {
    Output(MovingPatterns[Phase(pas)], Cos[MicroIndex(pas)])
  }

  /** A parked motor is held at half duty on the single bridge line of its
      phase, the phase being the position's two high bits. */
  lemma ParkedOutput(pas: Position)
    ensures Parked(pas).duty == 16
    ensures Parked(pas).porta == ParkedPatterns[pas / 8]
    ensures OneHot(Parked(pas).porta)
  {
  }

  /** A moving motor drives the two bridge lines of its phase and the next
      phase, with the duty of its micro-step on the cosine table, never more
      than the full period. */
  lemma MovingOutput(pas: Position)
    ensures Moving(pas).duty == Cos[pas % 16]
    ensures Moving(pas).duty <= 32
    ensures Moving(pas).porta == MovingPatterns[pas / 8]
    ensures Moving(pas).porta == ParkedPatterns[pas / 8] + ParkedPatterns[(pas / 8 + 1) % 4]
  {
  }

  /** The cosine table is symmetric about its middle entry: the second half
      of the half-period mirrors the first. */
  lemma CosSymmetric()
    ensures forall i :: 1 <= i <= 15 ==> Cos[i] == Cos[16 - i]
  {
  }

  /** Every duty in the table lies within the PWM period of 32. */
  lemma CosInRange()
    ensures forall i :: 0 <= i < |Cos| ==> 0 <= Cos[i] <= 32
  {
  }

  /** The table is a cosine sampled over a quarter period: it falls
      monotonically from full duty to zero over the first eight entries, and
      entries a quarter period apart always add up to the full period. */
  lemma CosQuarterWave()
    ensures Cos[0] == 32 && Cos[8] == 0
    ensures forall i :: 0 <= i < 8 ==> Cos[i + 1] <= Cos[i]
    ensures forall i {:trigger Cos[i]} :: 0 <= i < 16 ==> Cos[i] + Cos[(i + 8) % 16] == 32
  {
  }

  /** Positions a quarter of a cycle (eight micro-steps) apart share the
      PWM period between them: their moving duties add up to 32. */
  lemma MovingDutiesInQuadrature(pas: Position)
    ensures Moving(pas).duty + Moving((pas + 8) % 32).duty == 32
  {
    var i := MicroIndex(pas);
    QuarterTurn(pas);
    CosQuarterWave();
    assert Cos[i] + Cos[(i + 8) % 16] == 32;
  }

  /** A quarter cycle ahead, the micro-step is eight entries further on the table. */
  lemma QuarterTurn(pas: Position)
    ensures MicroIndex((pas + 8) % 32) == (MicroIndex(pas) + 8) % 16
  {
  }

  /** A parked pattern never equals a moving pattern, so each output tells
      whether the motor was parked or moving when it was written. */
  lemma ParkedAndMovingDistinct(p: Position, q: Position)
    ensures Parked(p).porta != Moving(q).porta
  {
  }

  /** Every position of the same phase parks on the same pattern, and the
      four phases park on four distinct lines. */
  lemma ParkedPhases(p: Position, q: Position)
    ensures Parked(p) == Parked(q) <==> p / 8 == q / 8
  {
  }
}

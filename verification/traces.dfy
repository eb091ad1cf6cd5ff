/**
 * Deterministic machines that may write one output per input, and the
 * trace of writes they leave over a sequence of inputs. The motion state
 * machine and the interrupt handler are both run this way.
 */
module Traces {
  import opened Wrappers

  /** The state after one input, and the output written, if any. */
  datatype Transition<S, O> = Transition(next: S, output: Option<O>)

  /** The state after a sequence of inputs, and every output written, in order. */
  datatype Trace<S, O> = Trace(last: S, outputs: seq<O>)

  /** Feeds the inputs to the machine one by one, first to last. */
  function Run<S, E, O>(step: (S, E) -> Transition<S, O>, s: S, events: seq<E>): (r: Trace<S, O>)
    ensures |r.outputs| <= |events|
    ensures |events| == 0 ==> r == Trace(s, [])
    decreases |events|
  {
    if |events| == 0 then Trace(s, [])
    else
      var t := step(s, events[0]);
      var rest := Run(step, t.next, events[1..]);
      Trace(rest.last, ToSeq(t.output) + rest.outputs)
  }

  /** A nonempty run is its first transition followed by the run of the rest. */
  lemma RunFirst<S, E, O>(step: (S, E) -> Transition<S, O>, s: S, e: E, events: seq<E>)
    ensures var t := step(s, e);
      var rest := Run(step, t.next, events);
      Run(step, s, [e] + events) == Trace(rest.last, ToSeq(t.output) + rest.outputs)
  {
    assert ([e] + events)[0] == e;
    assert ([e] + events)[1..] == events;
  }

  /** Running two input sequences one after the other is running their
      concatenation, and the outputs are concatenated too. */
  lemma {:induction false} RunAppend<S, E, O>(step: (S, E) -> Transition<S, O>, s: S, a: seq<E>, b: seq<E>)
    ensures Run(step, s, a + b).last == Run(step, Run(step, s, a).last, b).last
    ensures Run(step, s, a + b).outputs == Run(step, s, a).outputs + Run(step, Run(step, s, a).last, b).outputs
    decreases |a|
  {
    if |a| == 0 {
      assert a + b == b;
    } else {
      var t := step(s, a[0]);
      assert a == [a[0]] + a[1..];
      assert a + b == [a[0]] + (a[1..] + b);
      RunFirst(step, s, a[0], a[1..]);
      RunFirst(step, s, a[0], a[1..] + b);
      RunAppend(step, t.next, a[1..], b);
      var head := Run(step, t.next, a[1..]);
      var tail := Run(step, head.last, b);
      assert ToSeq(t.output) + (head.outputs + tail.outputs) == (ToSeq(t.output) + head.outputs) + tail.outputs;
    }
  }

  /** One more input after a run: the last transition extends the trace. */
  lemma RunSnoc<S, E, O>(step: (S, E) -> Transition<S, O>, s: S, events: seq<E>, e: E)
    ensures var t := step(Run(step, s, events).last, e);
      Run(step, s, events + [e]) == Trace(t.next, Run(step, s, events).outputs + ToSeq(t.output))
  {
    var mid := Run(step, s, events).last;
    RunAppend(step, s, events, [e]);
    RunFirst(step, mid, e, []);
    assert [e] + [] == [e];
    assert ToSeq(step(mid, e).output) + [] == ToSeq(step(mid, e).output);
  }
}

/** The native side as Elements see it, and the flush scheduler that all
    Elements share (the private static `willFlush` of the source). Its state is
    the trace of native calls so far, the `willFlush` flag, and the number of
    deferred flush callbacks still waiting in the microtask queue. */
module WorkletRuntime {
  import opened Wrappers
  import opened Native

  datatype World = World(trace: seq<Event>, willFlush: bool, pending: nat)

  /** The scheduler invariant: at most one flush callback is queued, and one is
      queued exactly when `willFlush` is set. */
  ghost predicate Coherent(w: World) {
    w.pending == if w.willFlush then 1 else 0
  }

  /** `flushElementTree()`: when no flush is armed, set the flag and queue one
      deferred callback; otherwise do nothing. */
  function ScheduleFlush(w: World): World {
    if w.willFlush then w else w.(willFlush := true, pending := w.pending + 1)
  }

  /** The deferred callback: clear the flag, then call `__FlushElementTree`. */
  function FlushCallback(w: World): World
    requires w.pending > 0
  {
    World(w.trace + [Flush], false, w.pending - 1)
  }

  /** The end of the turn: run queued callbacks until the queue is empty. */
  function Drain(w: World): (r: World)
    ensures r.pending == 0
    ensures |r.trace| == |w.trace| + w.pending && r.trace[..|w.trace|] == w.trace
    ensures forall i :: |w.trace| <= i < |r.trace| ==> r.trace[i] == Flush
    decreases w.pending
  {
    if w.pending == 0 then w
    else
      var r := Drain(FlushCallback(w));
      assert r.trace[..|w.trace| + 1][..|w.trace|] == r.trace[..|w.trace|];
      r
  }

  /** A native write followed by `flushElementTree()`, as every mutating
      Element operation does. */
  function Emit(w: World, e: Event): World {
    ScheduleFlush(w.(trace := w.trace + [e]))
  }

  /** A sequence of such writes in one synchronous turn. */
  function EmitAll(w: World, es: seq<Event>): World {
    if es == [] then w else Emit(EmitAll(w, es[..|es| - 1]), es[|es| - 1])
  }

  lemma EmitAllSnoc(w: World, es: seq<Event>, e: Event)
    ensures EmitAll(w, es + [e]) == Emit(EmitAll(w, es), e)
  {
    assert (es + [e])[..|es|] == es;
  }

  predicate NoFlush(es: seq<Event>) {
    forall i :: 0 <= i < |es| ==> !es[i].Flush?
  }

  function CountFlushes(es: seq<Event>): nat {
    if es == [] then 0 else CountFlushes(es[..|es| - 1]) + (if es[|es| - 1].Flush? then 1 else 0)
  }

  /** Triggering while a flush is armed changes nothing; from idle it arms
      exactly one callback and leaves the trace alone. */
  lemma ScheduleFlushCoalesces(w: World)
    ensures w.willFlush ==> ScheduleFlush(w) == w
    ensures !w.willFlush ==> ScheduleFlush(w) == World(w.trace, true, w.pending + 1)
    ensures ScheduleFlush(ScheduleFlush(w)) == ScheduleFlush(w)
  {
  }

  lemma CoherentPreserved(w: World, e: Event)
    requires Coherent(w)
    ensures Coherent(ScheduleFlush(w)) && Coherent(Emit(w, e))
    ensures w.pending > 0 ==> Coherent(FlushCallback(w))
  {
  }

  /** Running the queue from a coherent state appends exactly one flush when
      one was armed, none otherwise, and returns to idle. */
  lemma DrainCoherent(w: World)
    requires Coherent(w)
    ensures Drain(w) == World(w.trace + (if w.willFlush then [Flush] else []), false, 0)
  {
    if w.willFlush {
      assert Drain(FlushCallback(w)) == FlushCallback(w);
    }
  }

  /** Writes in one turn land in the trace in call order, and the scheduler
      ends armed exactly when it was armed before or some write happened. */
  lemma {:induction false} EmitAllShape(w: World, es: seq<Event>)
    requires Coherent(w)
    ensures EmitAll(w, es) == World(w.trace + es, w.willFlush || es != [],
                                    if w.willFlush || es != [] then 1 else 0)
  {
    if es != [] {
      var front := es[..|es| - 1];
      EmitAllShape(w, front);
      assert front + [es[|es| - 1]] == es;
    }
  }

  lemma {:induction false} CountFlushesAppend(a: seq<Event>, b: seq<Event>)
    ensures CountFlushes(a + b) == CountFlushes(a) + CountFlushes(b)
  {
    if b == [] {
      assert a + b == a;
    } else {
      assert (a + b)[..|a + b| - 1] == a + b[..|b| - 1];
      CountFlushesAppend(a, b[..|b| - 1]);
    }
  }

  lemma {:induction false} NoFlushCountsZero(es: seq<Event>)
    requires NoFlush(es)
    ensures CountFlushes(es) == 0
  {
    if es != [] {
      NoFlushCountsZero(es[..|es| - 1]);
    }
  }

  /** The coalescing guarantee: any number of writes issued in one synchronous
      turn, followed by the microtask queue, give the writes in call order and
      then exactly one `Flush` (none when nothing was written and nothing was
      armed), and leave the scheduler idle. */
  lemma OneFlushPerTurn(w: World, es: seq<Event>)
    requires Coherent(w) && NoFlush(es)
    ensures Drain(EmitAll(w, es)) ==
            World(w.trace + es + (if w.willFlush || es != [] then [Flush] else []), false, 0)
    ensures CountFlushes(Drain(EmitAll(w, es)).trace) ==
            CountFlushes(w.trace) + (if w.willFlush || es != [] then 1 else 0)
  {
    EmitAllShape(w, es);
    DrainCoherent(EmitAll(w, es));
    var tail := if w.willFlush || es != [] then [Flush] else [];
    assert w.trace + es + tail == w.trace + (es + tail);
    CountFlushesAppend(w.trace, es + tail);
    CountFlushesAppend(es, tail);
    NoFlushCountsZero(es);
    assert CountFlushes(tail) == if w.willFlush || es != [] then 1 else 0 by {
      if tail != [] {
        assert tail[..0] == [];
      }
    }
  }

  /** The native layer and the scheduler state. The native answers to reads
      and queries are given as functions of the trace so far: what the native
      layer does with the trace is not modelled. */
  class Runtime {
    var trace: seq<Event>
    var willFlush: bool
    var pending: nat
    const attributeOf: (seq<Event>, NodeRef, string) -> Value
    const attributeNamesOf: (seq<Event>, NodeRef) -> seq<string>
    const queryOne: (seq<Event>, NodeRef, string) -> Option<NodeRef>
    const queryAll: (seq<Event>, NodeRef, string) -> seq<NodeRef>

    function State(): World
      reads this
    {
      World(trace, willFlush, pending)
    }

    /** The scheduler invariant holds of the current state. */
    ghost predicate Valid()
      reads this
    {
      Coherent(State())
    }

    /** A fresh context: no native call yet, `willFlush` unset (the static
        field starts `undefined`, which is falsy), nothing queued. */
    constructor (attributeOf: (seq<Event>, NodeRef, string) -> Value,
                 attributeNamesOf: (seq<Event>, NodeRef) -> seq<string>,
                 queryOne: (seq<Event>, NodeRef, string) -> Option<NodeRef>,
                 queryAll: (seq<Event>, NodeRef, string) -> seq<NodeRef>)
      ensures State() == World([], false, 0) && Valid()
      ensures this.attributeOf == attributeOf && this.attributeNamesOf == attributeNamesOf
      ensures this.queryOne == queryOne && this.queryAll == queryAll
    {
      trace, willFlush, pending := [], false, 0;
      this.attributeOf, this.attributeNamesOf := attributeOf, attributeNamesOf;
      this.queryOne, this.queryAll := queryOne, queryAll;
    }

    /** One synchronous call of a native intrinsic that writes. */
    method Call(e: Event)
      requires Valid()
      modifies this
      ensures Valid()
      ensures State() == old(State()).(trace := old(trace) + [e])
    {
      trace := trace + [e];
    }

    /** `Element.flushElementTree` (lines 237-246). */
    method FlushElementTree()
      requires Valid()
      modifies this
      ensures Valid()
      ensures State() == ScheduleFlush(old(State()))
      ensures willFlush && trace == old(trace)
    {
      if willFlush {
        return;
      }
      willFlush := true;
      pending := pending + 1;
    }

    /** The arrow function queued by `flushElementTree`, run by the event loop. */
    method RunFlushCallback()
      requires Valid() && pending > 0
      modifies this
      ensures Valid()
      ensures State() == FlushCallback(old(State()))
    {
      willFlush := false;
      pending := pending - 1;
      trace := trace + [Flush];
    }

    /** The microtask checkpoint after a synchronous turn. */
    method RunMicrotasks()
      requires Valid()
      modifies this
      ensures Valid()
      ensures State() == Drain(old(State()))
      ensures pending == 0
    {
      while pending > 0
        invariant Valid()
        invariant Drain(State()) == Drain(old(State()))
        decreases pending
      {
        RunFlushCallback();
      }
    }
  }
}

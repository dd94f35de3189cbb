/** The generic event-stream driver: reset a processor once, then feed it a
    sequence of events in order and collect what it emits. */
module Run {

  import opened Events

  /** One call made on a processor, as recorded in its ghost log. */
  datatype Call = ResetCall | ProcessCall(ev: Event, skipCheck: bool, emitted: seq<Event>)

  /** The effect of one `process` call: the next state and the emitted events. */
  datatype Step<S> = Step(next: S, emitted: seq<Event>)

  /** The processor state reached and the calls made by a run of the driver. */
  datatype Trace<S> = Trace(state: S, calls: seq<Call>)

  /** The same for the batch form, with one result per input sequence. */
  datatype BatchTrace<S> = BatchTrace(state: S, calls: seq<Call>, results: seq<seq<Event>>)

  /** Anything with `reset()` and `process(event, bool)`: a layer or a whole
      network. Its behaviour is a state machine: `onReset` is the effect of
      `reset()` on the state, `onEvent` the effect of one `process` call and the
      events it emits. Every call is appended to `log`. */
  class Processor<S> {
    const onReset: S -> S
    const onEvent: (S, Event, bool) -> Step<S>
    var state: S
    ghost var log: seq<Call>

    constructor (onReset: S -> S, onEvent: (S, Event, bool) -> Step<S>, initial: S)
      ensures this.onReset == onReset && this.onEvent == onEvent
      ensures state == initial && log == []
    {
      this.onReset := onReset;
      this.onEvent := onEvent;
      state := initial;
      log := [];
    }

    method Reset()
      modifies this
      ensures state == onReset(old(state))
      ensures log == old(log) + [ResetCall]
    {
      state := onReset(state);
      log := log + [ResetCall];
    }

    method Process(ev: Event, skipCheck: bool) returns (emitted: seq<Event>)
      modifies this
      ensures Step(state, emitted) == onEvent(old(state), ev, skipCheck)
      ensures log == old(log) + [ProcessCall(ev, skipCheck, emitted)]
    {
      var step := onEvent(state, ev, skipCheck);
      state, emitted := step.next, step.emitted;
      log := log + [ProcessCall(ev, skipCheck, emitted)];
    }
  }

  /** The events emitted by `calls`, concatenated in call order. */
  function Emitted(calls: seq<Call>): seq<Event>
    decreases |calls|
  {
    if calls == [] then []
    else
      var last := calls[|calls| - 1];
      Emitted(calls[..|calls| - 1]) + (if last.ProcessCall? then last.emitted else [])
  }

  /** Number of `reset()` calls in `calls`. */
  function Resets(calls: seq<Call>): (n: nat)
    ensures n <= |calls|
    decreases |calls|
  {
    if calls == [] then 0
    else Resets(calls[..|calls| - 1]) + (if calls[|calls| - 1].ResetCall? then 1 else 0)
  }

  /** Feeding `events` one by one, from state `s`: the state reached and the
      calls made, one per event. */
  function Feed<S>(onEvent: (S, Event, bool) -> Step<S>, s: S, events: seq<Event>, skipCheck: bool)
    : (r: Trace<S>)
    ensures |r.calls| == |events|
    decreases |events|
  {
    if events == [] then Trace(s, [])
    else
      var before := Feed(onEvent, s, events[..|events| - 1], skipCheck);
      var step := onEvent(before.state, events[|events| - 1], skipCheck);
      Trace(step.next, before.calls + [ProcessCall(events[|events| - 1], skipCheck, step.emitted)])
  }

  /** One single-sequence `process` session from state `s`: a reset, then the
      events fed in order. */
  function Session<S>(onReset: S -> S, onEvent: (S, Event, bool) -> Step<S>,
                      s: S, events: seq<Event>, skipCheck: bool): (r: Trace<S>)
    ensures |r.calls| == |events| + 1
  {
    var fed := Feed(onEvent, onReset(s), events, skipCheck);
    Trace(fed.state, [ResetCall] + fed.calls)
  }

  /** The batch form from state `s`: one session per sequence, in batch order;
      the state reached, all calls made and one result per sequence. */
  function Batch<S>(onReset: S -> S, onEvent: (S, Event, bool) -> Step<S>,
                    s: S, batch: seq<seq<Event>>, skipCheck: bool): (r: BatchTrace<S>)
    ensures |r.results| == |batch|
    decreases |batch|
  {
    if batch == [] then BatchTrace(s, [], [])
    else
      var before := Batch(onReset, onEvent, s, batch[..|batch| - 1], skipCheck);
      var session := Session(onReset, onEvent, before.state, batch[|batch| - 1], skipCheck);
      BatchTrace(session.state, before.calls + session.calls, before.results + [Emitted(session.calls)])
  }

  /** Single-sequence `process`: reset the processor once, feed every event in
      order with `skipCheck`, and return everything it emitted, in order. */
  method Process<S>(p: Processor<S>, events: seq<Event>, skipCheck: bool) returns (ret: seq<Event>)
    modifies p
    ensures var session := Session(p.onReset, p.onEvent, old(p.state), events, skipCheck);
            && p.state == session.state
            && p.log == old(p.log) + session.calls
            && ret == Emitted(session.calls)
  {
    p.Reset();
    ret := FeedEach(p, events, skipCheck);
    SessionOutput(p.onReset, p.onEvent, old(p.state), events, skipCheck);
  }

  /** The loop of `Process`: feed every event in order, appending what the
      processor emits to the output. */
  method FeedEach<S>(p: Processor<S>, events: seq<Event>, skipCheck: bool) returns (ret: seq<Event>)
    modifies p
    ensures var fed := Feed(p.onEvent, old(p.state), events, skipCheck);
            && p.state == fed.state
            && p.log == old(p.log) + fed.calls
            && ret == Emitted(fed.calls)
  {
    ghost var onEvent, start, log0 := p.onEvent, p.state, p.log;
    ghost var fed := Trace(start, []);
    ret := [];
    for i := 0 to |events|
      invariant fed == Feed(onEvent, start, events[..i], skipCheck)
      invariant p.state == fed.state && p.log == log0 + fed.calls && ret == Emitted(fed.calls)
    {
      fed := FeedStep(onEvent, start, events, skipCheck, i, fed);
      var nev := p.Process(events[i], skipCheck);
      ret := ret + nev;
    }
    assert events[..|events|] == events;
  }

  /** Batch `process`: one single-sequence session per sequence, results in
      batch order. */
  method ProcessBatch<S>(p: Processor<S>, batch: seq<seq<Event>>, skipCheck: bool)
    returns (ret: seq<seq<Event>>)
    modifies p
    ensures var r := Batch(p.onReset, p.onEvent, old(p.state), batch, skipCheck);
            && p.state == r.state
            && p.log == old(p.log) + r.calls
            && ret == r.results
  {
    ghost var start := p.state;
    ghost var log0 := p.log;
    ghost var calls: seq<Call> := [];
    ret := [];
    for i := 0 to |batch|
      invariant BatchTrace(p.state, calls, ret) == Batch(p.onReset, p.onEvent, start, batch[..i], skipCheck)
      invariant p.log == log0 + calls
    {
      assert batch[..i + 1][..i] == batch[..i];
      ghost var session := Session(p.onReset, p.onEvent, p.state, batch[i], skipCheck);
      var out := Process(p, batch[i], skipCheck);
      ret := ret + [out];
      calls := calls + session.calls;
    }
    assert batch[..|batch|] == batch;
  }

  /** Feeding one more event extends the state, the calls and the output by
      one step. */
  lemma FeedStep<S>(onEvent: (S, Event, bool) -> Step<S>, s: S, events: seq<Event>, skipCheck: bool,
                    i: nat, fed: Trace<S>) returns (fed': Trace<S>)
    requires i < |events| && fed == Feed(onEvent, s, events[..i], skipCheck)
    ensures var step := onEvent(fed.state, events[i], skipCheck);
            && fed' == Feed(onEvent, s, events[..i + 1], skipCheck)
            && fed'.state == step.next
            && fed'.calls == fed.calls + [ProcessCall(events[i], skipCheck, step.emitted)]
            && Emitted(fed'.calls) == Emitted(fed.calls) + step.emitted
  {
    assert events[..i + 1][..i] == events[..i];
    fed' := Feed(onEvent, s, events[..i + 1], skipCheck);
    assert fed'.calls[..|fed'.calls| - 1] == fed.calls;
  }

  // ---------------------------------------------------------------------
  // Properties of the driver's specification

  /** Emission is compositional: the calls of `a` then `b` emit what `a`
      emits followed by what `b` emits. */
  lemma {:induction false} EmittedAppend(a: seq<Call>, b: seq<Call>)
    ensures Emitted(a + b) == Emitted(a) + Emitted(b)
    decreases |b|
  {
    if b == [] {
      assert a + b == a;
    } else {
      var b' := b[..|b| - 1];
      assert (a + b)[..|a + b| - 1] == a + b';
      EmittedAppend(a, b');
    }
  }

  /** Resets are counted compositionally. */
  lemma {:induction false} ResetsAppend(a: seq<Call>, b: seq<Call>)
    ensures Resets(a + b) == Resets(a) + Resets(b)
    decreases |b|
  {
    if b == [] {
      assert a + b == a;
    } else {
      var b' := b[..|b| - 1];
      assert (a + b)[..|a + b| - 1] == a + b';
      ResetsAppend(a, b');
    }
  }

  /** A log made only of `process` calls holds no reset. */
  lemma {:induction false} NoResetsAmongProcessCalls(calls: seq<Call>)
    requires forall i :: 0 <= i < |calls| ==> calls[i].ProcessCall?
    ensures Resets(calls) == 0
    decreases |calls|
  {
    if calls != [] {
      NoResetsAmongProcessCalls(calls[..|calls| - 1]);
    }
  }

  /** Feeding makes one `process` call per event, in input order, each with
      the caller's flag unchanged. */
  lemma {:induction false} FeedCallsFollowInput<S>(onEvent: (S, Event, bool) -> Step<S>,
                                                  s: S, events: seq<Event>, skipCheck: bool)
    ensures var calls := Feed(onEvent, s, events, skipCheck).calls;
            forall i :: 0 <= i < |calls| ==>
              calls[i].ProcessCall? && calls[i].ev == events[i] && calls[i].skipCheck == skipCheck
    decreases |events|
  {
    if events != [] {
      FeedCallsFollowInput(onEvent, s, events[..|events| - 1], skipCheck);
    }
  }

  /** `reset()` is called exactly once per single-sequence session, and it is
      the first call: every later call processes the next input event, with
      the caller's flag. */
  lemma ResetExactlyOnceAndFirst<S>(onReset: S -> S, onEvent: (S, Event, bool) -> Step<S>,
                                    s: S, events: seq<Event>, skipCheck: bool)
    ensures var calls := Session(onReset, onEvent, s, events, skipCheck).calls;
            && Resets(calls) == 1
            && calls[0] == ResetCall
            && forall i :: 1 <= i < |calls| ==>
                 calls[i].ProcessCall? && calls[i].ev == events[i - 1] && calls[i].skipCheck == skipCheck
  {
    var fed := Feed(onEvent, onReset(s), events, skipCheck).calls;
    var calls := Session(onReset, onEvent, s, events, skipCheck).calls;
    assert calls == [ResetCall] + fed;
    FeedCallsFollowInput(onEvent, onReset(s), events, skipCheck);
    NoResetsAmongProcessCalls(fed);
    ResetsAppend([ResetCall], fed);
    assert [ResetCall][..0] == [];
  }

  /** An empty sequence emits nothing, but the processor is still reset once. */
  lemma EmptySequence<S>(onReset: S -> S, onEvent: (S, Event, bool) -> Step<S>, s: S, skipCheck: bool)
    ensures Session(onReset, onEvent, s, [], skipCheck) == Trace(onReset(s), [ResetCall])
    ensures Emitted(Session(onReset, onEvent, s, [], skipCheck).calls) == []
  {
    assert [ResetCall] + [] == [ResetCall];
    assert [ResetCall][..0] == [];
  }

  /** The output of call `i` sits, unchanged, between the outputs of the
      calls before it and those after it: the driver adds, drops and
      reorders nothing. */
  lemma OutputInCallOrder(calls: seq<Call>, i: nat)
    requires i < |calls| && calls[i].ProcessCall?
    ensures Emitted(calls) == Emitted(calls[..i]) + calls[i].emitted + Emitted(calls[i + 1..])
  {
    assert calls == calls[..i] + [calls[i]] + calls[i + 1..];
    EmittedAppend(calls[..i] + [calls[i]], calls[i + 1..]);
    EmittedAppend(calls[..i], [calls[i]]);
    assert [calls[i]][..0] == [];
  }

  /** The output never exceeds the number of events times the largest
      fan-out of the processor. */
  lemma {:induction false} OutputBound<S>(onEvent: (S, Event, bool) -> Step<S>,
                                         s: S, events: seq<Event>, skipCheck: bool, fanout: nat)
    requires forall st, ev :: |onEvent(st, ev, skipCheck).emitted| <= fanout
    ensures |Emitted(Feed(onEvent, s, events, skipCheck).calls)| <= |events| * fanout
    decreases |events|
  {
    if events != [] {
      var n := |events| - 1;
      var prefix := events[..n];
      OutputBound(onEvent, s, prefix, skipCheck, fanout);
      var fed := Feed(onEvent, s, prefix, skipCheck);
      var step := onEvent(fed.state, events[n], skipCheck);
      var calls := fed.calls + [ProcessCall(events[n], skipCheck, step.emitted)];
      assert Feed(onEvent, s, events, skipCheck).calls == calls;
      assert calls[..|calls| - 1] == fed.calls;
      assert |step.emitted| <= fanout;
      MulSucc(n, fanout);
    }
  }

  /** One more event adds one more fan-out to the bound. */
  lemma MulSucc(n: nat, f: nat)
    ensures (n + 1) * f == n * f + f
  {
  }

  /** The single-sequence session emits exactly what feeding the events after
      the reset emits. */
  lemma SessionOutput<S>(onReset: S -> S, onEvent: (S, Event, bool) -> Step<S>,
                         s: S, events: seq<Event>, skipCheck: bool)
    ensures Emitted(Session(onReset, onEvent, s, events, skipCheck).calls)
            == Emitted(Feed(onEvent, onReset(s), events, skipCheck).calls)
  {
    EmittedAppend([ResetCall], Feed(onEvent, onReset(s), events, skipCheck).calls);
    assert [ResetCall][..0] == [];
  }

  /** Batch result `i` is the single-sequence `process` applied to sequence
      `i`, from the state left by the sequences before it. */
  lemma {:induction false} BatchResultAt<S>(onReset: S -> S, onEvent: (S, Event, bool) -> Step<S>,
                                           s: S, batch: seq<seq<Event>>, skipCheck: bool, i: nat)
    requires i < |batch|
    ensures var before := Batch(onReset, onEvent, s, batch[..i], skipCheck).state;
            Batch(onReset, onEvent, s, batch, skipCheck).results[i]
              == Emitted(Session(onReset, onEvent, before, batch[i], skipCheck).calls)
    decreases |batch|
  {
    var prefix := batch[..|batch| - 1];
    if i < |batch| - 1 {
      BatchResultAt(onReset, onEvent, s, prefix, skipCheck, i);
      assert prefix[..i] == batch[..i];
    } else {
      assert batch[..i] == prefix;
    }
  }

  /** The batch form resets the processor once per sequence. */
  lemma {:induction false} BatchResets<S>(onReset: S -> S, onEvent: (S, Event, bool) -> Step<S>,
                                         s: S, batch: seq<seq<Event>>, skipCheck: bool)
    ensures Resets(Batch(onReset, onEvent, s, batch, skipCheck).calls) == |batch|
    decreases |batch|
  {
    if batch != [] {
      var prefix := batch[..|batch| - 1];
      BatchResets(onReset, onEvent, s, prefix, skipCheck);
      var before := Batch(onReset, onEvent, s, prefix, skipCheck);
      ResetExactlyOnceAndFirst(onReset, onEvent, before.state, batch[|batch| - 1], skipCheck);
      ResetsAppend(before.calls, Session(onReset, onEvent, before.state, batch[|batch| - 1], skipCheck).calls);
    }
  }

  /** When `reset()` forgets everything (it brings every state to the same
      one), batch result `i` is what processing sequence `i` alone, from any
      state, returns: the batch form equals independent single-sequence
      calls. */
  lemma BatchIndependentOfHistory<S>(onReset: S -> S, onEvent: (S, Event, bool) -> Step<S>,
                                     s: S, batch: seq<seq<Event>>, skipCheck: bool, i: nat, other: S)
    requires forall st1, st2 :: onReset(st1) == onReset(st2)
    requires i < |batch|
    ensures Batch(onReset, onEvent, s, batch, skipCheck).results[i]
            == Emitted(Session(onReset, onEvent, other, batch[i], skipCheck).calls)
  {
    var before := Batch(onReset, onEvent, s, batch[..i], skipCheck).state;
    BatchResultAt(onReset, onEvent, s, batch, skipCheck, i);
    assert onReset(before) == onReset(other);
  }

}

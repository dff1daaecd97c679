/**
 * The asynchronous logger of logger.c as a system of interleaved steps: any number of
 * producer threads, the writer thread and the thread that shuts the logger down share a
 * queue and a flag under one mutex, with one condition variable that may wake spuriously.
 * Every statement that touches shared state is a step of its own.
 */
module LoggerProtocol {
  import opened Wrappers

  datatype Agent = Writer | Closer | Producer(id: nat)

  /** Where the writer thread is (async_writer_thread). */
  datatype WriterPc =
    | Starting                 // about to lock for the first time
    | Checking                 // holds the mutex, about to test running and the queue
    | Waiting                  // blocked in the condition wait, mutex released
    | Waking                   // woken, has to take the mutex again
    | Popped(msg: string)      // holds the mutex, message unlinked, about to unlock
    | Writing(msg: string)     // mutex released, about to write
    | Relocking                // message written, about to lock
    | Draining                 // holds the mutex, about to test the queue
    | DrainWriting(msg: string) // holds the mutex, message unlinked, about to write
    | Finished

  /** Where a producer is (async_logger_enqueue). */
  datatype ProducerPc = Idle | Locked(msg: string) | Appended | Unlocking

  /** Where the shutdown is (destroy_async_logger). */
  datatype CloserPc = Open | ClosingLocked | Cleared | Signalled | Joining | Returned

  /** A message handed to write_single_log_message, and whether there was memory to format it. */
  datatype Outcome = Outcome(msg: string, gotMemory: bool)

  datatype State = State(
    toStdout: bool,          // the level is LOG_INFO and the common log is stderr, which no step changes
    owner: Option<Agent>,
    queue: seq<string>,
    running: bool,
    writer: WriterPc,
    producers: seq<ProducerPc>,
    closer: CloserPc,
    written: seq<Outcome>,
    accepted: seq<string>)   // every message appended so far, in the order of the lock

  datatype Action =
    | WriterStep(gotMemory: bool)
    | SpuriousWake
    | StartLog(p: nat, msg: string)
    | ProducerStep(p: nat, gotMemory: bool)
    | CloserStep

  ghost predicate Init(s: State) {
    && s.owner == None && s.queue == [] && s.running && s.writer == Starting
    && (forall p | 0 <= p < |s.producers| :: s.producers[p] == Idle)
    && s.closer == Open && s.written == [] && s.accepted == []
  }

  /** A thread may step when it holds the mutex, needs no mutex, or the mutex it needs is free. */
  predicate Enabled(s: State, a: Action) {
    match a
    case WriterStep(_) =>
      (match s.writer
       case Starting | Waking | Relocking => s.owner == None
       case Checking | Popped(_) | Writing(_) | Draining | DrainWriting(_) => true
       case Waiting | Finished => false)
    case SpuriousWake => s.writer == Waiting
    case StartLog(p, _) =>
      // no logging call is begun once the writer thread has ended
      p < |s.producers| && s.producers[p] == Idle && s.owner == None && s.writer != Finished
    case ProducerStep(p, _) => p < |s.producers| && s.producers[p] != Idle
    case CloserStep =>
      (match s.closer
       case Open => s.owner == None
       case ClosingLocked | Cleared | Signalled => true
       case Joining => s.writer == Finished
       case Returned => false)
  }

  /** pthread_cond_signal: only the writer ever waits. */
  function Signal(w: WriterPc): WriterPc {
    if w == Waiting then Waking else w
  }

  function Apply(s: State, a: Action): State
    requires Enabled(s, a)
  {
    match a
    case WriterStep(gotMemory) => ApplyWriter(s, gotMemory)
    case SpuriousWake => s.(writer := Waking)
    case StartLog(p, msg) => s.(owner := Some(Producer(p)), producers := s.producers[p := Locked(msg)])
    case ProducerStep(p, gotMemory) => ApplyProducer(s, p, gotMemory)
    case CloserStep => ApplyCloser(s)
  }

  function ApplyWriter(s: State, gotMemory: bool): State
    requires Enabled(s, WriterStep(gotMemory))
  {
    match s.writer
    case Starting | Waking | Relocking => s.(owner := Some(Writer), writer := Checking)
    case Checking =>
      if !s.running then s.(writer := Draining)
      else if s.queue == [] then s.(owner := None, writer := Waiting)
      else s.(queue := s.queue[1..], writer := Popped(s.queue[0]))
    case Popped(msg) => s.(owner := None, writer := Writing(msg))
    case Writing(msg) => s.(written := s.written + [Outcome(msg, gotMemory)], writer := Relocking)
    case Draining =>
      if s.queue == [] then s.(owner := None, writer := Finished)
      else s.(queue := s.queue[1..], writer := DrainWriting(s.queue[0]))
    case DrainWriting(msg) => s.(written := s.written + [Outcome(msg, gotMemory)], writer := Draining)
  }

  function ApplyProducer(s: State, p: nat, gotMemory: bool): State
    requires Enabled(s, ProducerStep(p, gotMemory))
  {
    match s.producers[p]
    case Locked(msg) =>
      if gotMemory
      then s.(queue := s.queue + [msg], accepted := s.accepted + [msg], producers := s.producers[p := Appended])
      else s.(producers := s.producers[p := Unlocking])
    case Appended => s.(writer := Signal(s.writer), producers := s.producers[p := Unlocking])
    case Unlocking => s.(owner := None, producers := s.producers[p := Idle])
  }

  function ApplyCloser(s: State): State
    requires Enabled(s, CloserStep)
  {
    match s.closer
    case Open => s.(owner := Some(Closer), closer := ClosingLocked)
    case ClosingLocked => s.(running := false, closer := Cleared)
    case Cleared => s.(writer := Signal(s.writer), closer := Signalled)
    case Signalled => s.(owner := None, closer := Joining)
    case Joining => s.(closer := Returned)
  }

  // -------------------------------------------------------------- invariant

  predicate WriterHolds(w: WriterPc) {
    w.Checking? || w.Popped? || w.Draining? || w.DrainWriting?
  }

  predicate CloserHolds(c: CloserPc) {
    c.ClosingLocked? || c.Cleared? || c.Signalled?
  }

  /** The mutex has the owner its holder's position says, hence one holder at most. */
  ghost predicate Exclusive(s: State) {
    && (s.owner == Some(Writer) <==> WriterHolds(s.writer))
    && (s.owner == Some(Closer) <==> CloserHolds(s.closer))
    && (forall p: nat | p < |s.producers| :: s.owner == Some(Producer(p)) <==> s.producers[p] != Idle)
    && (s.owner.Some? && s.owner.value.Producer? ==> s.owner.value.id < |s.producers|)
  }

  function InFlight(w: WriterPc): seq<string> {
    match w
    case Popped(msg) => [msg]
    case Writing(msg) => [msg]
    case DrainWriting(msg) => [msg]
    case _ => []
  }

  /** The messages handed over, in order. */
  function Messages(w: seq<Outcome>): (ms: seq<string>)
    ensures |ms| == |w|
  {
    if w == [] then [] else Messages(w[..|w| - 1]) + [w[|w| - 1].msg]
  }

  /** The messages there was memory for, in order. */
  function Formatted(w: seq<Outcome>): (ms: seq<string>)
    ensures |ms| <= |w|
  {
    if w == [] then [] else Formatted(w[..|w| - 1]) + if w[|w| - 1].gotMemory then [w[|w| - 1].msg] else []
  }

  /** What the logger's own file holds: nothing if its messages go to the standard output. */
  function OnFile(s: State): seq<string> {
    if s.toStdout then [] else Formatted(s.written)
  }

  function OnStdout(s: State): seq<string> {
    if s.toStdout then Formatted(s.written) else []
  }

  ghost predicate Conserved(s: State) {
    Messages(s.written) + InFlight(s.writer) + s.queue == s.accepted
  }

  /** The mutex holder has changed what the writer waits for and is about to signal. */
  ghost predicate SignalPending(s: State) {
    || s.closer == Cleared
    || (s.owner.Some? && s.owner.value.Producer? && s.owner.value.id < |s.producers|
        && s.producers[s.owner.value.id] == Appended)
  }

  ghost predicate NoLostWakeup(s: State) {
    s.writer == Waiting && !SignalPending(s) ==> s.queue == [] && s.running
  }

  ghost predicate Phases(s: State) {
    && (s.running <==> s.closer.Open? || s.closer.ClosingLocked?)
    && (s.writer.Draining? || s.writer.DrainWriting? || s.writer.Finished? ==> !s.running)
    && (s.writer.Finished? ==> s.queue == [] && s.closer in {Joining, Returned} && !OwnedByProducer(s))
    && (s.closer == Returned ==> s.writer == Finished)
  }

  ghost predicate OwnedByProducer(s: State) {
    s.owner.Some? && s.owner.value.Producer?
  }

  ghost predicate Inv(s: State) {
    Exclusive(s) && Conserved(s) && NoLostWakeup(s) && Phases(s)
  }

  lemma InitInv(s: State)
    requires Init(s)
    ensures Inv(s)
  {
  }

  lemma OneMoreMessage(w: seq<Outcome>, o: Outcome)
    ensures Messages(w + [o]) == Messages(w) + [o.msg]
  {
    assert (w + [o])[..|w|] == w;
  }

  lemma Unlinked(m: seq<string>, queue: seq<string>)
    ensures queue != [] ==> m + [queue[0]] + queue[1..] == m + [] + queue
  {
  }

  lemma HandedOver(m: seq<string>, msg: string, queue: seq<string>)
    ensures (m + [msg]) + [] + queue == m + [msg] + queue
  {
  }

  lemma Appends(m: seq<string>, queue: seq<string>, msg: string)
    ensures m + (queue + [msg]) == (m + queue) + [msg]
  {
  }

  lemma WriterConserves(s: State, gotMemory: bool)
    requires Conserved(s) && Enabled(s, WriterStep(gotMemory))
    ensures Conserved(ApplyWriter(s, gotMemory))
  {
    hide Messages;
    var m := Messages(s.written);
    match s.writer
    case Checking => Unlinked(m, s.queue);
    case Draining => Unlinked(m, s.queue);
    case Writing(msg) =>
      OneMoreMessage(s.written, Outcome(msg, gotMemory));
      HandedOver(m, msg, s.queue);
    case DrainWriting(msg) =>
      OneMoreMessage(s.written, Outcome(msg, gotMemory));
      HandedOver(m, msg, s.queue);
    case _ =>
  }

  lemma WriterKeepsInv(s: State, gotMemory: bool)
    requires Inv(s) && Enabled(s, WriterStep(gotMemory))
    ensures Inv(ApplyWriter(s, gotMemory))
  {
    hide Conserved;
    WriterConserves(s, gotMemory);
  }

  lemma ProducerKeepsInv(s: State, p: nat, gotMemory: bool)
    requires Inv(s) && Enabled(s, ProducerStep(p, gotMemory))
    ensures Inv(ApplyProducer(s, p, gotMemory))
  {
    hide Conserved;
    assert s.owner == Some(Producer(p));
    ProducerConserves(s, p, gotMemory);
  }

  lemma ProducerConserves(s: State, p: nat, gotMemory: bool)
    requires Conserved(s) && Enabled(s, ProducerStep(p, gotMemory))
    ensures Conserved(ApplyProducer(s, p, gotMemory))
  {
    hide Messages;
    match s.producers[p]
    case Locked(msg) => Appends(Messages(s.written) + InFlight(s.writer), s.queue, msg);
    case _ =>
  }

  lemma CloserKeepsInv(s: State)
    requires Inv(s) && Enabled(s, CloserStep)
    ensures Inv(ApplyCloser(s))
  {
  }

  /** Every step of every thread keeps the invariant. */
  lemma StepKeepsInv(s: State, a: Action)
    requires Inv(s) && Enabled(s, a)
    ensures Inv(Apply(s, a))
  {
    match a
    case WriterStep(gotMemory) => WriterKeepsInv(s, gotMemory);
    case SpuriousWake =>
    case StartLog(p, msg) =>
    case ProducerStep(p, gotMemory) => ProducerKeepsInv(s, p, gotMemory);
    case CloserStep => CloserKeepsInv(s);
  }

  // -------------------------------------------------------------- whole runs

  /** A run: states joined by enabled actions, from an initial state. */
  ghost predicate IsRun(states: seq<State>, actions: seq<Action>) {
    && |states| == |actions| + 1
    && Init(states[0])
    && forall i | 0 <= i < |actions| ::
      Enabled(states[i], actions[i]) && states[i + 1] == Apply(states[i], actions[i])
  }

  lemma {:induction false} RunKeepsInv(states: seq<State>, actions: seq<Action>, i: nat)
    requires IsRun(states, actions) && i < |states|
    ensures Inv(states[i])
  {
    if i == 0 {
      InitInv(states[0]);
    } else {
      RunKeepsInv(states, actions, i - 1);
      StepKeepsInv(states[i - 1], actions[i - 1]);
    }
  }

  /** The message of a call that producer p has begun and not got on with, after k actions. */
  function Begun(actions: seq<Action>, k: nat, p: nat): Option<string>
    requires k <= |actions|
  {
    if k == 0 then None
    else
      match actions[k - 1]
      case StartLog(q, msg) => if q == p then Some(msg) else Begun(actions, k - 1, p)
      case ProducerStep(q, _) => if q == p then None else Begun(actions, k - 1, p)
      case _ => Begun(actions, k - 1, p)
  }

  /** The messages of all calls that got memory, in the order in which they did. */
  function Enqueued(actions: seq<Action>, k: nat): seq<string>
    requires k <= |actions|
  {
    if k == 0 then []
    else
      var before := Enqueued(actions, k - 1);
      match actions[k - 1]
      case ProducerStep(p, true) =>
        var msg := Begun(actions, k - 1, p);
        if msg.Some? then before + [msg.value] else before
      case _ => before
  }

  lemma {:induction false} LockedIsBegun(states: seq<State>, actions: seq<Action>, i: nat, p: nat)
    requires IsRun(states, actions) && i < |states| && p < |states[i].producers|
    ensures |states[i].producers| == |states[0].producers|
    ensures if states[i].producers[p].Locked? then Begun(actions, i, p) == Some(states[i].producers[p].msg)
            else Begun(actions, i, p) == None
  {
    if i > 0 {
      LockedIsBegun(states, actions, i - 1, p);
    }
  }

  lemma StepAccepts(s: State, a: Action)
    requires Enabled(s, a)
    ensures Apply(s, a).accepted
         == if a.ProducerStep? && a.gotMemory && s.producers[a.p].Locked? then s.accepted + [s.producers[a.p].msg]
            else s.accepted
    ensures a.ProducerStep? ==> a.p < |s.producers|
  {
  }

  /** Every logging call that gets memory is accepted, whatever the others do; nothing else is. */
  lemma {:induction false} AcceptedIs(states: seq<State>, actions: seq<Action>, i: nat)
    requires IsRun(states, actions) && i < |states|
    ensures states[i].accepted == Enqueued(actions, i)
  {
    hide Enabled, Apply, Begun;
    if i > 0 {
      AcceptedIs(states, actions, i - 1);
      StepAccepts(states[i - 1], actions[i - 1]);
      if actions[i - 1].ProducerStep? {
        LockedIsBegun(states, actions, i - 1, actions[i - 1].p);
      }
    }
  }

  /** At every point of every run nothing is lost, repeated or reordered. */
  lemma NothingLost(states: seq<State>, actions: seq<Action>, i: nat)
    requires IsRun(states, actions) && i < |states|
    ensures Messages(states[i].written) + InFlight(states[i].writer) + states[i].queue == Enqueued(actions, i)
    ensures Messages(states[i].written) <= states[i].accepted == Enqueued(actions, i)
  {
    hide Messages, Enqueued, IsRun, Exclusive, NoLostWakeup, Phases;
    RunKeepsInv(states, actions, i);
    AcceptedIs(states, actions, i);
    var s := states[i];
    assert s.accepted == Messages(s.written) + (InFlight(s.writer) + s.queue);
  }

  /** All messages handed over come out if and only if there was memory for each of them. */
  lemma {:induction false} FormattedIff(w: seq<Outcome>)
    ensures Formatted(w) == Messages(w) <==> forall o | o in w :: o.gotMemory
    ensures |Formatted(w)| == |w| ==> Formatted(w) == Messages(w)
  {
    if w != [] {
      var n := |w| - 1;
      FormattedIff(w[..n]);
      assert w == w[..n] + [w[n]];
    }
  }

  /**
   * When the shutdown returns, exactly the accepted messages have been handed over, in order. The
   * logger's file holds them all if and only if there are none, or they do not go to the standard
   * output and memory never ran out.
   */
  lemma ShutdownFlushes(states: seq<State>, actions: seq<Action>, i: nat)
    requires IsRun(states, actions) && i < |states| && states[i].closer == Returned
    ensures Messages(states[i].written) == states[i].accepted == Enqueued(actions, i) && states[i].queue == []
    ensures OnFile(states[i]) == states[i].accepted <==>
            states[i].accepted == [] || (!states[i].toStdout && forall o | o in states[i].written :: o.gotMemory)
    ensures OnStdout(states[i]) == states[i].accepted <==>
            states[i].accepted == [] || (states[i].toStdout && forall o | o in states[i].written :: o.gotMemory)
  {
    RunKeepsInv(states, actions, i);
    AcceptedIs(states, actions, i);
    FormattedIff(states[i].written);
    assert |Messages(states[i].written)| == |states[i].written|;
  }

  /** Where messages go is settled before the first of them. */
  lemma {:induction false} DestinationFixed(states: seq<State>, actions: seq<Action>, i: nat)
    requires IsRun(states, actions) && i < |states|
    ensures states[i].toStdout == states[0].toStdout
  {
    hide Init;
    if i > 0 {
      DestinationFixed(states, actions, i - 1);
    }
  }

  /** A run that ends in a state, with memory whenever the writer needed it. */
  ghost predicate EndsIn(states: seq<State>, actions: seq<Action>, s: State) {
    && IsRun(states, actions) && states[|actions|] == s
    && forall a | a in actions && a.WriterStep? :: a.gotMemory
  }

  lemma OneMore(states: seq<State>, actions: seq<Action>, a: Action, s: State)
    returns (states': seq<State>, actions': seq<Action>)
    requires states != [] && EndsIn(states, actions, states[|states| - 1])
    requires Enabled(states[|states| - 1], a) && Apply(states[|states| - 1], a) == s
    requires a.WriterStep? ==> a.gotMemory
    ensures states' == states + [s] && EndsIn(states', actions', s)
  {
    hide Init, Enabled, Apply;
    states', actions' := states + [s], actions + [a];
  }

  lemma InfoAccepted() returns (states: seq<State>, actions: seq<Action>)
    ensures states != [] && states[|states| - 1] == State(true, None, ["hi"], true, Starting, [Idle], Open, [], ["hi"])
    ensures EndsIn(states, actions, states[|states| - 1])
  {
    hide EndsIn;
    states, actions := [State(true, None, [], true, Starting, [Idle], Open, [], [])], [];
    RunOfNothing(states[0]);
    states, actions := OneMore(states, actions, StartLog(0, "hi"),
                               State(true, Some(Producer(0)), [], true, Starting, [Locked("hi")], Open, [], []));
    states, actions := OneMore(states, actions, ProducerStep(0, true),
                               State(true, Some(Producer(0)), ["hi"], true, Starting, [Appended], Open, [], ["hi"]));
    states, actions := OneMore(states, actions, ProducerStep(0, true),
                               State(true, Some(Producer(0)), ["hi"], true, Starting, [Unlocking], Open, [], ["hi"]));
    states, actions := OneMore(states, actions, ProducerStep(0, true),
                               State(true, None, ["hi"], true, Starting, [Idle], Open, [], ["hi"]));
  }

  lemma RunOfNothing(s: State)
    requires Init(s)
    ensures EndsIn([s], [], s)
  {
  }

  lemma InfoClosing() returns (states: seq<State>, actions: seq<Action>)
    ensures states != []
    ensures states[|states| - 1] == State(true, None, ["hi"], false, Starting, [Idle], Joining, [], ["hi"])
    ensures EndsIn(states, actions, states[|states| - 1])
  {
    hide EndsIn;
    states, actions := InfoAccepted();
    states, actions := OneMore(states, actions, CloserStep,
                               State(true, Some(Closer), ["hi"], true, Starting, [Idle], ClosingLocked, [], ["hi"]));
    states, actions := OneMore(states, actions, CloserStep,
                               State(true, Some(Closer), ["hi"], false, Starting, [Idle], Cleared, [], ["hi"]));
    states, actions := OneMore(states, actions, CloserStep,
                               State(true, Some(Closer), ["hi"], false, Starting, [Idle], Signalled, [], ["hi"]));
    states, actions := OneMore(states, actions, CloserStep,
                               State(true, None, ["hi"], false, Starting, [Idle], Joining, [], ["hi"]));
  }

  lemma InfoDrained() returns (states: seq<State>, actions: seq<Action>)
    ensures states != []
    ensures states[|states| - 1]
         == State(true, None, [], false, Finished, [Idle], Returned, [Outcome("hi", true)], ["hi"])
    ensures EndsIn(states, actions, states[|states| - 1])
  {
    hide EndsIn;
    var written := [Outcome("hi", true)];
    states, actions := InfoClosing();
    states, actions := OneMore(states, actions, WriterStep(true),
                               State(true, Some(Writer), ["hi"], false, Checking, [Idle], Joining, [], ["hi"]));
    states, actions := OneMore(states, actions, WriterStep(true),
                               State(true, Some(Writer), ["hi"], false, Draining, [Idle], Joining, [], ["hi"]));
    states, actions := OneMore(states, actions, WriterStep(true),
                               State(true, Some(Writer), [], false, DrainWriting("hi"), [Idle], Joining, [], ["hi"]));
    states, actions := OneMore(states, actions, WriterStep(true),
                               State(true, Some(Writer), [], false, Draining, [Idle], Joining, written, ["hi"]));
    states, actions := OneMore(states, actions, WriterStep(true),
                               State(true, None, [], false, Finished, [Idle], Joining, written, ["hi"]));
    states, actions := OneMore(states, actions, CloserStep,
                               State(true, None, [], false, Finished, [Idle], Returned, written, ["hi"]));
  }

  /** A run in which the INFO logger accepts one message and is shut down with its file empty. */
  lemma InfoFileStaysEmpty() returns (states: seq<State>, actions: seq<Action>)
    ensures IsRun(states, actions) && states[|actions|].closer == Returned
    ensures forall a | a in actions && a.WriterStep? :: a.gotMemory
    ensures states[|actions|].accepted == ["hi"] && OnFile(states[|actions|]) == []
    ensures OnStdout(states[|actions|]) == ["hi"]
  {
    hide Init;
    states, actions := InfoDrained();
    var written := [Outcome("hi", true)];
    assert written[..0] == [];
  }

  /** A message accepted earlier in a run is still accepted, at the same place, later. */
  lemma {:induction false} AcceptedGrows(states: seq<State>, actions: seq<Action>, i: nat, k: nat)
    requires IsRun(states, actions) && i <= k < |states|
    ensures states[i].accepted <= states[k].accepted
    decreases k
  {
    if i < k {
      AcceptedGrows(states, actions, i, k - 1);
    }
  }

  /** Whatever was accepted before running was cleared is written by the time of the return. */
  lemma AcceptedBeforeClearIsWritten(states: seq<State>, actions: seq<Action>, i: nat, k: nat)
    requires IsRun(states, actions) && i <= k < |states|
    requires states[i].running && states[k].closer == Returned
    ensures states[i].accepted <= Messages(states[k].written)
  {
    AcceptedGrows(states, actions, i, k);
    ShutdownFlushes(states, actions, k);
  }

  /** An undisturbed logging call appends its message, wakes the writer and leaves everything else alone. */
  lemma CallAppends(s: State, p: nat, msg: string)
    requires Inv(s) && s.owner == None && p < |s.producers| && s.producers[p] == Idle && s.writer != Finished
    ensures var step := ProducerStep(p, true);
            && Enabled(s, StartLog(p, msg)) && Enabled(Apply(s, StartLog(p, msg)), step)
            && var s1 := Apply(Apply(s, StartLog(p, msg)), step);
               && Enabled(s1, step) && Enabled(Apply(s1, step), step)
               && Apply(Apply(s1, step), step)
                  == s.(queue := s.queue + [msg], accepted := s.accepted + [msg],
                        writer := if s.writer == Waiting then Waking else s.writer)
  {
    var s' := Apply(s, StartLog(p, msg));
    assert s'.producers[p := Appended][p := Unlocking][p := Idle] == s.producers;
  }

  // --------------------------------------------------------------- progress

  /** A sleeping writer misses nothing: without a signal on its way it has nothing to do. */
  lemma NoWakeupLost(states: seq<State>, actions: seq<Action>, i: nat)
    requires IsRun(states, actions) && i < |states|
    requires states[i].writer == Waiting && !SignalPending(states[i])
    ensures states[i].queue == [] && states[i].running
  {
    RunKeepsInv(states, actions, i);
  }

  /** A thread other than a new logging call can always move while a shutdown is under way. */
  lemma NoDeadlock(s: State) returns (a: Action)
    requires Inv(s) && s.closer != Open && s.closer != Returned
    ensures Enabled(s, a) && !a.StartLog? && !a.SpuriousWake?
  {
    match s.owner
    case Some(Writer) => a := WriterStep(true);
    case Some(Closer) => a := CloserStep;
    case Some(Producer(p)) => a := ProducerStep(p, true);
    case None => a := if s.writer == Finished then CloserStep else WriterStep(true);
  }

  function WriterWork(w: WriterPc): nat {
    match w
    case Popped(_) => 5
    case Writing(_) | Waiting => 4
    case Starting | Waking | Relocking => 3
    case Checking | DrainWriting(_) => 2
    case Draining => 1
    case Finished => 0
  }

  ghost function ProducerWork(s: State): nat {
    if OwnedByProducer(s) && s.owner.value.id < |s.producers|
    then match s.producers[s.owner.value.id]
         case Locked(_) => 5
         case Appended => 2
         case Unlocking => 1
         case Idle => 0
    else 0
  }

  function CloserWork(c: CloserPc): nat {
    match c
    case Open => 5
    case ClosingLocked => 4
    case Cleared => 3
    case Signalled => 2
    case Joining => 1
    case Returned => 0
  }

  /** The steps left once running has been cleared and no new message comes in. */
  ghost function Work(s: State): nat {
    WriterWork(s.writer) + 2 * |s.queue| + ProducerWork(s) + CloserWork(s.closer)
  }

  lemma WriterProgress(s: State, gotMemory: bool)
    requires !s.running && Enabled(s, WriterStep(gotMemory))
    requires Exclusive(s)
    ensures Work(ApplyWriter(s, gotMemory)) < Work(s)
  {
  }

  lemma ProducerProgress(s: State, p: nat, gotMemory: bool)
    requires Exclusive(s) && Enabled(s, ProducerStep(p, gotMemory))
    ensures Work(ApplyProducer(s, p, gotMemory)) < Work(s)
  {
    assert s.owner == Some(Producer(p));
  }

  lemma CloserProgress(s: State)
    requires Exclusive(s) && Enabled(s, CloserStep)
    ensures Work(ApplyCloser(s)) < Work(s)
  {
  }

  /** After running is cleared every step but a new logging call uses up work. */
  lemma ShutdownProgress(s: State, a: Action)
    requires Inv(s) && !s.running && Enabled(s, a) && !a.StartLog?
    ensures Work(Apply(s, a)) < Work(s)
    ensures !Apply(s, a).running
  {
    hide Conserved, NoLostWakeup, Exclusive, Phases;
    match a
    case WriterStep(gotMemory) => WriterProgress(s, gotMemory);
    case SpuriousWake =>
    case ProducerStep(p, gotMemory) => ProducerProgress(s, p, gotMemory);
    case CloserStep => CloserProgress(s);
  }

  /** A new logging call brings at most five more steps. */
  lemma StartWork(s: State, a: Action)
    requires Inv(s) && !s.running && Enabled(s, a) && a.StartLog?
    ensures Work(Apply(s, a)) == Work(s) + 5 && !Apply(s, a).running
  {
  }

  /** How many logging calls begin between steps i and k. */
  function Starts(actions: seq<Action>, i: nat, k: nat): nat
    requires k <= |actions|
  {
    if k <= i then 0 else Starts(actions, i, k - 1) + if actions[k - 1].StartLog? then 1 else 0
  }

  /** So a shutdown takes no more steps than the work it started with and six for each new logging call. */
  lemma {:induction false} ShutdownBounded(states: seq<State>, actions: seq<Action>, i: nat, k: nat)
    requires IsRun(states, actions) && i <= k < |states| && !states[i].running
    ensures !states[k].running && k - i + Work(states[k]) <= Work(states[i]) + 6 * Starts(actions, i, k)
    decreases k
  {
    hide Work, Inv, Apply, Enabled;
    if i < k {
      ShutdownBounded(states, actions, i, k - 1);
      RunKeepsInv(states, actions, k - 1);
      if actions[k - 1].StartLog? {
        StartWork(states[k - 1], actions[k - 1]);
      } else {
        ShutdownProgress(states[k - 1], actions[k - 1]);
      }
    }
  }

  // ------------------------------------------- progress at any time

  /** While a message is queued or in hand some thread inside the logger can move, without any outside event. */
  lemma BusyMoves(s: State) returns (a: Action)
    requires Inv(s) && (s.queue != [] || InFlight(s.writer) != [])
    ensures Enabled(s, a) && !a.StartLog? && !a.SpuriousWake? && (a.CloserStep? ==> s.closer != Open)
  {
    hide Conserved;
    match s.owner
    case Some(Writer) => a := WriterStep(true);
    case Some(Closer) => a := CloserStep;
    case Some(Producer(p)) => a := ProducerStep(p, true);
    case None => a := WriterStep(true);
  }

  function WriterLoad(w: WriterPc): nat {
    match w
    case Popped(_) => 5
    case Writing(_) => 4
    case Starting | Waking | Relocking => 3
    case Checking | DrainWriting(_) => 2
    case Draining | Waiting => 1
    case Finished => 0
  }

  ghost function ProducerLoad(s: State): nat {
    if OwnedByProducer(s) && s.owner.value.id < |s.producers|
    then match s.producers[s.owner.value.id]
         case Locked(_) => 9
         case Appended => 4
         case Unlocking => 1
         case Idle => 0
    else 0
  }

  function CloserLoad(c: CloserPc): nat {
    match c
    case Open => 7
    case ClosingLocked => 6
    case Cleared => 5
    case Signalled => 2
    case Joining => 1
    case Returned => 0
  }

  /** The work at hand, running or not. */
  ghost function Load(s: State): nat {
    WriterLoad(s.writer) + 4 * |s.queue| + ProducerLoad(s) + CloserLoad(s.closer)
  }

  /** What outside events add to it. */
  function Cost(a: Action): nat {
    match a
    case StartLog(_, _) => 10
    case SpuriousWake => 3
    case _ => 0
  }

  function Costs(actions: seq<Action>, k: nat): nat
    requires k <= |actions|
  {
    if k == 0 then 0 else Costs(actions, k - 1) + Cost(actions[k - 1])
  }

  lemma WriterUnloads(s: State, gotMemory: bool)
    requires Exclusive(s) && Phases(s) && Enabled(s, WriterStep(gotMemory))
    ensures Load(ApplyWriter(s, gotMemory)) < Load(s)
  {
  }

  lemma ProducerUnloads(s: State, p: nat, gotMemory: bool)
    requires Exclusive(s) && Enabled(s, ProducerStep(p, gotMemory))
    ensures Load(ApplyProducer(s, p, gotMemory)) < Load(s)
  {
    assert s.owner == Some(Producer(p));
  }

  lemma CloserUnloads(s: State)
    requires Exclusive(s) && Enabled(s, CloserStep)
    ensures Load(ApplyCloser(s)) < Load(s)
  {
  }

  lemma StartLoads(s: State, p: nat, msg: string)
    requires Exclusive(s) && Enabled(s, StartLog(p, msg))
    ensures Load(Apply(s, StartLog(p, msg))) == Load(s) + 9
  {
  }

  lemma StepUnloads(s: State, a: Action)
    requires Inv(s) && Enabled(s, a)
    ensures Load(Apply(s, a)) + 1 <= Load(s) + Cost(a)
  {
    hide Conserved, NoLostWakeup, Exclusive, Phases;
    match a
    case WriterStep(gotMemory) => WriterUnloads(s, gotMemory);
    case SpuriousWake =>
    case ProducerStep(p, gotMemory) => ProducerUnloads(s, p, gotMemory);
    case CloserStep => CloserUnloads(s);
    case StartLog(p, msg) => StartLoads(s, p, msg);
  }

  /** Any run has no more steps than ten for each logging call, three for each spurious wakeup, and ten. */
  lemma {:induction false} RunBounded(states: seq<State>, actions: seq<Action>, k: nat)
    requires IsRun(states, actions) && k < |states|
    ensures k + Load(states[k]) <= 10 + Costs(actions, k)
  {
    hide Load, Inv, Apply, Enabled, Cost;
    if k == 0 {
      StartLoad(states[0]);
    } else {
      RunBounded(states, actions, k - 1);
      RunKeepsInv(states, actions, k - 1);
      StepUnloads(states[k - 1], actions[k - 1]);
    }
  }

  lemma StartLoad(s: State)
    requires Init(s)
    ensures Load(s) == 10
  {
  }
}

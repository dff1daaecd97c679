/**
 * The threads of 17_log_reader/main.c as interleaved steps. Each critical section (the file
 * queue's, the total's, the two maps') is one step; between them threads interleave freely,
 * and the queue's condition variable may wake spuriously.
 */
module LogWorkers {
  import opened Wrappers
  import opened LogTally

  type Files = seq<Option<seq<Line>>>

  datatype WorkerPc =
    | NotStarted
    | AtQueue                   // about to lock the queue
    | Waiting                   // blocked in the condition wait
    | Opening(file: nat)        // has taken an index, about to open the file
    | Working(ops: seq<Op>)     // the updates still to make for the open file
    | Exited

  datatype MainPc = Spawning(k: nat) | Closing | Joining(k: nat) | Done

  /** A worker has taken a file index. */
  datatype Take = Take(worker: nat, file: nat)

  datatype State = State(
    next: nat,
    finished: bool,
    workers: seq<WorkerPc>,
    main: MainPc,
    tally: Tally,
    log: seq<Op>,               // every update made so far, in the order it was made
    takes: seq<Take>)           // the indexes taken so far, in the order of the lock

  datatype Action = MainStep | WorkerStep(w: nat) | SpuriousWake(w: nat)

  ghost predicate Init(s: State) {
    && s.next == 0 && !s.finished && s.main == Spawning(0) && s.tally == EMPTY && s.log == [] && s.takes == []
    && forall w | 0 <= w < |s.workers| :: s.workers[w] == NotStarted
  }

  predicate Enabled(s: State, a: Action) {
    match a
    case MainStep =>
      (match s.main
       case Spawning(_) | Closing => true
       case Joining(k) => k < |s.workers| ==> s.workers[k] == Exited
       case Done => false)
    case WorkerStep(w) =>
      w < |s.workers| && s.workers[w] != NotStarted && s.workers[w] != Waiting && s.workers[w] != Exited
    case SpuriousWake(w) => w < |s.workers| && s.workers[w] == Waiting
  }

  /** pthread_cond_broadcast. */
  function WakeAll(ws: seq<WorkerPc>): (r: seq<WorkerPc>)
    ensures |r| == |ws|
    ensures forall i | 0 <= i < |ws| :: r[i] == if ws[i] == Waiting then AtQueue else ws[i]
  {
    seq(|ws|, i requires 0 <= i < |ws| => if ws[i] == Waiting then AtQueue else ws[i])
  }

  function Step(files: Files, s: State, a: Action): State
    requires Enabled(s, a)
  {
    match a
    case MainStep => StepMain(files, s)
    case SpuriousWake(w) => s.(workers := s.workers[w := AtQueue])
    case WorkerStep(w) =>
      match s.workers[w]
      case AtQueue => StepQueue(files, s, w)
      case Opening(f) =>
        var lines := if f < |files| then files[f] else None;
        s.(workers := s.workers[w := if lines.None? then AtQueue else Working(FileOps(lines.value))])
      case Working(ops) =>
        if ops == [] then s.(workers := s.workers[w := AtQueue])
        else s.(tally := Apply(s.tally, ops[0]), log := s.log + [ops[0]], workers := s.workers[w := Working(ops[1..])])
  }

  /** The critical section on the file queue: wait, leave, or take the next index. */
  function StepQueue(files: Files, s: State, w: nat): State
    requires w < |s.workers|
  {
    if s.next >= |files| && !s.finished then s.(workers := s.workers[w := Waiting])
    else if s.finished && s.next >= |files| then s.(workers := s.workers[w := Exited])
    else
      var idx := s.next;
      var last := idx == |files| - 1;
      var ws := s.workers[w := Opening(idx)];
      s.(next := idx + 1, finished := s.finished || last, workers := if last then WakeAll(ws) else ws,
         takes := s.takes + [Take(w, idx)])
  }

  function StepMain(files: Files, s: State): State
    requires Enabled(s, MainStep)
  {
    match s.main
    case Spawning(k) =>
      if k < |s.workers| then s.(workers := s.workers[k := AtQueue], main := Spawning(k + 1))
      else s.(main := Closing)
    case Closing =>
      if |files| == 0 then s.(finished := true, workers := WakeAll(s.workers), main := Joining(0))
      else s.(main := Joining(0))
    case Joining(k) => s.(main := if k < |s.workers| then Joining(k + 1) else Done)
  }

  // ------------------------------------------------------- work still to do

  function OpsOfWorker(files: Files, pc: WorkerPc): seq<Op> {
    match pc
    case Opening(f) => if f < |files| then OpsOf(files[f]) else []
    case Working(ops) => ops
    case _ => []
  }

  /** How often x occurs. */
  ghost function Times(ops: seq<Op>, x: Op): nat {
    if ops == [] then 0 else Times(ops[..|ops| - 1], x) + if ops[|ops| - 1] == x then 1 else 0
  }

  lemma {:induction false} TimesIsMultiplicity(ops: seq<Op>, x: Op)
    ensures Times(ops, x) == multiset(ops)[x]
  {
    if ops != [] {
      TimesIsMultiplicity(ops[..|ops| - 1], x);
      assert ops == ops[..|ops| - 1] + [ops[|ops| - 1]];
    }
  }

  lemma {:induction false} TimesConcat(a: seq<Op>, b: seq<Op>, x: Op)
    ensures Times(a + b, x) == Times(a, x) + Times(b, x)
  {
    if b == [] {
      assert a + b == a;
    } else {
      TimesConcat(a, b[..|b| - 1], x);
      assert (a + b)[..|a + b| - 1] == a + b[..|b| - 1];
    }
  }

  /** The sum over the workers of a figure each position has. */
  ghost function Sum(ws: seq<WorkerPc>, f: WorkerPc -> nat): nat {
    if ws == [] then 0 else Sum(ws[..|ws| - 1], f) + f(ws[|ws| - 1])
  }

  lemma {:induction false} SumAfterMove(ws: seq<WorkerPc>, w: nat, pc: WorkerPc, f: WorkerPc -> nat)
    requires w < |ws|
    ensures Sum(ws[w := pc], f) + f(ws[w]) == Sum(ws, f) + f(pc)
  {
    var n := |ws| - 1;
    if w < n {
      SumAfterMove(ws[..n], w, pc, f);
      assert ws[w := pc][..n] == ws[..n][w := pc];
    } else {
      assert ws[w := pc][..n] == ws[..n];
    }
  }

  /** A broadcast adds, per worker, at most what leaving the wait adds. */
  lemma {:induction false} SumAfterWaking(ws: seq<WorkerPc>, f: WorkerPc -> nat, d: nat)
    requires f(AtQueue) == f(Waiting) + d
    ensures Sum(ws, f) <= Sum(WakeAll(ws), f) <= Sum(ws, f) + d * |ws|
  {
    if ws != [] {
      var n := |ws| - 1;
      SumAfterWaking(ws[..n], f, d);
      assert WakeAll(ws)[..n] == WakeAll(ws[..n]);
      assert d * n + d == d * |ws|;
    }
  }

  lemma {:induction false} SumOfZeros(ws: seq<WorkerPc>, f: WorkerPc -> nat)
    requires forall w | 0 <= w < |ws| :: f(ws[w]) == 0
    ensures Sum(ws, f) == 0
  {
    if ws != [] {
      SumOfZeros(ws[..|ws| - 1], f);
    }
  }

  /** How often the update x is still to be made by a worker. */
  ghost function PendingAt(files: Files, x: Op): WorkerPc -> nat {
    pc => Times(OpsOfWorker(files, pc), x)
  }

  /** How often the files of index n and above call for the update x. */
  ghost function PendingOfFiles(files: Files, n: nat, x: Op): nat
    decreases |files| - n
  {
    if n >= |files| then 0 else Times(OpsOf(files[n]), x) + PendingOfFiles(files, n + 1, x)
  }

  ghost function Pending(files: Files, s: State, x: Op): nat {
    Sum(s.workers, PendingAt(files, x)) + PendingOfFiles(files, s.next, x)
  }

  lemma {:induction false} AllOpsFrom(files: Files, n: nat, x: Op)
    requires n <= |files|
    ensures Times(AllOps(files), x) == Times(AllOps(files[..n]), x) + PendingOfFiles(files, n, x)
    decreases |files| - n
  {
    if n == |files| {
      assert files[..n] == files;
    } else {
      AllOpsFrom(files, n + 1, x);
      assert files[..n + 1][..n] == files[..n];
      TimesConcat(AllOps(files[..n]), OpsOf(files[n]), x);
    }
  }

  // -------------------------------------------------------------- invariant

  /** Every update of every file is either made or still pending, none twice. */
  ghost predicate Conserved(files: Files, s: State) {
    && s.tally == Fold(s.log)
    && forall x :: Times(s.log, x) + Pending(files, s, x) == Times(AllOps(files), x)
  }

  predicate Started(s: State, w: nat) {
    s.main.Spawning? ==> w < s.main.k
  }

  ghost predicate QueueInv(files: Files, s: State) {
    && s.next <= |files|
    && (s.finished ==> s.next == |files|)
    && (|files| > 0 ==> (s.finished <==> s.next == |files|))
    && (|files| == 0 ==> (s.finished <==> s.main.Joining? || s.main.Done?))
    && (forall w | 0 <= w < |s.workers| :: s.workers[w] == Waiting ==> !s.finished && |files| == 0)
    && (forall w | 0 <= w < |s.workers| :: s.workers[w] == Exited ==> s.finished)
    && (forall w | 0 <= w < |s.workers| :: s.workers[w] == NotStarted <==> !Started(s, w))
    && (s.main.Spawning? ==> s.main.k <= |s.workers|)
    && (s.main.Joining? ==> s.main.k <= |s.workers|)
    && (s.main.Joining? ==> forall w | 0 <= w < |s.workers| && w < s.main.k :: s.workers[w] == Exited)
    && (s.main.Done? ==> forall w | 0 <= w < |s.workers| :: s.workers[w] == Exited)
  }

  /** The indexes below next have been taken, one after the other; who holds one has taken it. */
  ghost predicate TakenOnce(s: State) {
    && |s.takes| == s.next
    && (forall f | 0 <= f < |s.takes| :: s.takes[f].file == f && s.takes[f].worker < |s.workers|)
    && forall w | 0 <= w < |s.workers| && s.workers[w].Opening? ::
      s.workers[w].file < s.next && s.takes[s.workers[w].file].worker == w
  }

  ghost predicate Inv(files: Files, s: State) {
    Conserved(files, s) && QueueInv(files, s) && TakenOnce(s)
  }

  lemma InitInv(files: Files, s: State)
    requires Init(s)
    ensures Inv(files, s)
  {
    forall x ensures Times(s.log, x) + Pending(files, s, x) == Times(AllOps(files), x) {
      SumOfZeros(s.workers, PendingAt(files, x));
      AllOpsFrom(files, 0, x);
    }
  }

  /** Taking an index moves the file's updates from the queue to the worker. */
  lemma TakeConserves(files: Files, ws: seq<WorkerPc>, w: nat, next: nat, x: Op)
    requires next < |files| && w < |ws| && ws[w] == AtQueue
    ensures var ws' := ws[w := Opening(next)];
            Sum(ws', PendingAt(files, x)) + PendingOfFiles(files, next + 1, x)
            == Sum(ws, PendingAt(files, x)) + PendingOfFiles(files, next, x)
    ensures Sum(WakeAll(ws[w := Opening(next)]), PendingAt(files, x))
         == Sum(ws[w := Opening(next)], PendingAt(files, x))
  {
    hide Sum;
    SumAfterMove(ws, w, Opening(next), PendingAt(files, x));
    SumAfterWaking(ws[w := Opening(next)], PendingAt(files, x), 0);
  }

  lemma QueueStepConserves(files: Files, s: State, w: nat, x: Op)
    requires s.next <= |files| && w < |s.workers| && s.workers[w] == AtQueue
    ensures Pending(files, StepQueue(files, s, w), x) == Pending(files, s, x)
    ensures StepQueue(files, s, w).log == s.log
  {
    hide Sum, PendingOfFiles, Times;
    var s' := StepQueue(files, s, w);
    if s.next < |files| {
      TakeConserves(files, s.workers, w, s.next, x);
    } else {
      var pc := if s.finished then Exited else Waiting;
      SumAfterMove(s.workers, w, pc, PendingAt(files, x));
    }
  }

  lemma UpdateConserves(files: Files, s: State, w: nat, x: Op)
    requires w < |s.workers| && s.workers[w].Working? && s.workers[w].ops != []
    ensures var ops := s.workers[w].ops;
            Times(s.log + [ops[0]], x) + Sum(s.workers[w := Working(ops[1..])], PendingAt(files, x))
            == Times(s.log, x) + Sum(s.workers, PendingAt(files, x))
  {
    var ops := s.workers[w].ops;
    SumAfterMove(s.workers, w, Working(ops[1..]), PendingAt(files, x));
    assert ops == [ops[0]] + ops[1..];
    TimesConcat([ops[0]], ops[1..], x);
    TimesConcat(s.log, [ops[0]], x);
  }

  /** The update x is neither lost nor repeated by a worker's step. */
  lemma WorkerStepConserves(files: Files, s: State, w: nat, x: Op)
    requires s.next <= |files| && Enabled(s, WorkerStep(w))
    ensures var s' := Step(files, s, WorkerStep(w));
            Times(s'.log, x) + Pending(files, s', x) == Times(s.log, x) + Pending(files, s, x)
  {
    hide Sum, PendingOfFiles, Times, StepQueue;
    if s.workers[w] == AtQueue {
      QueueStepConserves(files, s, w, x);
    } else if s.workers[w].Working? && s.workers[w].ops != [] {
      UpdateConserves(files, s, w, x);
    } else {
      SumAfterMove(s.workers, w, Step(files, s, WorkerStep(w)).workers[w], PendingAt(files, x));
    }
  }

  lemma OtherStepConserves(files: Files, s: State, a: Action, x: Op)
    requires QueueInv(files, s) && Enabled(s, a) && !a.WorkerStep?
    ensures var s' := Step(files, s, a);
            s'.log == s.log && s'.tally == s.tally && Pending(files, s', x) == Pending(files, s, x)
  {
    hide Sum, PendingOfFiles, Times;
    match a
    case SpuriousWake(w) => SumAfterMove(s.workers, w, AtQueue, PendingAt(files, x));
    case MainStep =>
      if s.main.Spawning? && s.main.k < |s.workers| {
        assert s.workers[s.main.k] == NotStarted;
        SumAfterMove(s.workers, s.main.k, AtQueue, PendingAt(files, x));
      }
      SumAfterWaking(s.workers, PendingAt(files, x), 0);
  }

  lemma QueueStepKeepsQueueInv(files: Files, s: State, w: nat)
    requires QueueInv(files, s) && TakenOnce(s) && w < |s.workers| && s.workers[w] == AtQueue
    ensures QueueInv(files, StepQueue(files, s, w)) && TakenOnce(StepQueue(files, s, w))
  {
  }

  lemma MainStepKeepsQueueInv(files: Files, s: State)
    requires QueueInv(files, s) && TakenOnce(s) && Enabled(s, MainStep)
    ensures QueueInv(files, StepMain(files, s)) && TakenOnce(StepMain(files, s))
  {
  }

  /** The steps that only move one worker between positions outside the queue's lock. */
  lemma MoveKeepsQueueInv(files: Files, s: State, w: nat, pc: WorkerPc)
    requires QueueInv(files, s) && TakenOnce(s) && w < |s.workers|
    requires s.workers[w] != NotStarted && s.workers[w] != Exited
    requires pc == AtQueue || pc.Working?
    ensures QueueInv(files, s.(workers := s.workers[w := pc])) && TakenOnce(s.(workers := s.workers[w := pc]))
  {
  }

  lemma StepKeepsQueueInv(files: Files, s: State, a: Action)
    requires QueueInv(files, s) && TakenOnce(s) && Enabled(s, a)
    ensures QueueInv(files, Step(files, s, a)) && TakenOnce(Step(files, s, a))
  {
    hide StepQueue, StepMain;
    if a.MainStep? {
      MainStepKeepsQueueInv(files, s);
    } else if a.WorkerStep? && s.workers[a.w] == AtQueue {
      QueueStepKeepsQueueInv(files, s, a.w);
    } else {
      MoveKeepsQueueInv(files, s, a.w, Step(files, s, a).workers[a.w]);
    }
  }

  lemma StepKeepsTally(files: Files, s: State, a: Action)
    requires s.tally == Fold(s.log) && Enabled(s, a)
    ensures Step(files, s, a).tally == Fold(Step(files, s, a).log)
  {
    var s' := Step(files, s, a);
    if s'.log != s.log {
      assert s'.log[..|s'.log| - 1] == s.log;
    }
  }

  /** Every step of every thread keeps the invariant. */
  lemma StepKeepsInv(files: Files, s: State, a: Action)
    requires Inv(files, s) && Enabled(s, a)
    ensures Inv(files, Step(files, s, a))
  {
    var s' := Step(files, s, a);
    StepKeepsQueueInv(files, s, a);
    StepKeepsTally(files, s, a);
    forall x ensures Times(s'.log, x) + Pending(files, s', x) == Times(AllOps(files), x) {
      if a.WorkerStep? {
        WorkerStepConserves(files, s, a.w, x);
      } else {
        OtherStepConserves(files, s, a, x);
      }
    }
  }

  // -------------------------------------------------------------- whole runs

  ghost predicate IsRun(files: Files, states: seq<State>, actions: seq<Action>) {
    && |states| == |actions| + 1
    && Init(states[0])
    && forall i | 0 <= i < |actions| ::
      Enabled(states[i], actions[i]) && states[i + 1] == Step(files, states[i], actions[i])
  }

  lemma {:induction false} RunKeepsInv(files: Files, states: seq<State>, actions: seq<Action>, i: nat)
    requires IsRun(files, states, actions) && i < |states|
    ensures Inv(files, states[i])
  {
    if i == 0 {
      InitInv(files, states[0]);
    } else {
      RunKeepsInv(files, states, actions, i - 1);
      StepKeepsInv(files, states[i - 1], actions[i - 1]);
    }
  }

  /** Once all workers are joined the result is that of a sequential pass, whatever the schedule. */
  lemma ResultIsSequential(files: Files, states: seq<State>, actions: seq<Action>, i: nat)
    requires IsRun(files, states, actions) && i < |states|
    requires states[i].main == Done && |states[i].workers| > 0
    ensures states[i].tally == Fold(AllOps(files)) && Reports(states[i].tally, AllLines(files))
  {
    hide Reports;
    var s := states[i];
    SequentialReports(files);
    RunKeepsInv(files, states, actions, i);
    assert s.workers[0] == Exited;
    forall x ensures multiset(s.log)[x] == multiset(AllOps(files))[x] {
      SumOfZeros(s.workers, PendingAt(files, x));
      TimesIsMultiplicity(s.log, x);
      TimesIsMultiplicity(AllOps(files), x);
    }
    assert multiset(s.log) == multiset(AllOps(files));
    FoldOfPermutation(s.log, AllOps(files));
  }

  /** The largest value of the int that counts a referer. */
  const INT_MAX: nat := 0x7FFF_FFFF

  lemma {:induction false} RefCountIsTimes(ops: seq<Op>, referer: Text)
    ensures RefCount(ops, referer) == Times(ops, IncRef(referer))
  {
    if ops != [] {
      RefCountIsTimes(ops[..|ops| - 1], referer);
    }
  }

  /** During a run no count is ahead of the lines. */
  lemma CountsBounded(files: Files, states: seq<State>, actions: seq<Action>, i: nat, referer: Text)
    requires IsRun(files, states, actions) && i < |states|
    ensures referer in states[i].tally.refs ==>
              states[i].tally.refs[referer] <= RefLines(AllLines(files), referer)
  {
    hide Pending, Fold, Times, RefCount;
    var log := states[i].log;
    RunKeepsInv(files, states, actions, i);
    RefMeans(log, referer);
    RefCountIsTimes(log, referer);
    RefCountIsTimes(AllOps(files), referer);
    assert Times(log, IncRef(referer)) <= Times(AllOps(files), IncRef(referer));
    AllOpsIs(files);
    SumsOfLines(AllLines(files), [], referer);
  }

  /** Every count is one an int can hold. */
  ghost predicate CountsFit(t: Tally) {
    forall referer | referer in t.refs :: t.refs[referer] <= INT_MAX
  }

  ghost predicate FewLines(lines: seq<Line>) {
    forall referer :: RefLines(lines, referer) <= INT_MAX
  }

  lemma ReportFits(t: Tally, lines: seq<Line>)
    requires Reports(t, lines) && CountsFit(t)
    ensures FewLines(lines)
  {
  }

  /** No int overflows in a complete run if and only if no referer has more lines than an int can count. */
  lemma CountsFitIff(files: Files, states: seq<State>, actions: seq<Action>)
    requires IsRun(files, states, actions) && states[|actions|].main == Done && |states[|actions|].workers| > 0
    ensures (forall i: nat | i < |states| :: CountsFit(states[i].tally)) <==> FewLines(AllLines(files))
  {
    hide Init, Enabled, Step, Fold, Reports;
    var n := |actions|;
    ResultIsSequential(files, states, actions, n);
    if CountsFit(states[n].tally) {
      ReportFits(states[n].tally, AllLines(files));
    }
    forall i: nat | i < |states| && FewLines(AllLines(files)) ensures CountsFit(states[i].tally) {
      forall referer | referer in states[i].tally.refs ensures states[i].tally.refs[referer] <= INT_MAX {
        CountsBounded(files, states, actions, i, referer);
      }
    }
  }

  /** With files to read no worker ever waits; a wait means there are none and main has yet to say so. */
  lemma WaitsOnlyForMain(files: Files, states: seq<State>, actions: seq<Action>, i: nat, w: nat)
    requires IsRun(files, states, actions) && i < |states| && w < |states[i].workers|
    requires states[i].workers[w] == Waiting
    ensures |files| == 0 && !states[i].finished && (states[i].main.Spawning? || states[i].main == Closing)
  {
    RunKeepsInv(files, states, actions, i);
  }

  /** The number of times an index has been taken. */
  function Taken(takes: seq<Take>, file: nat): nat {
    if takes == [] then 0
    else Taken(takes[..|takes| - 1], file) + if takes[|takes| - 1].file == file then 1 else 0
  }

  lemma {:induction false} TakenInOrder(takes: seq<Take>, file: nat)
    requires forall f | 0 <= f < |takes| :: takes[f].file == f
    ensures Taken(takes, file) == if file < |takes| then 1 else 0
  {
    if takes != [] {
      TakenInOrder(takes[..|takes| - 1], file);
    }
  }

  /** No index is ever taken twice, and before any worker exits each has been taken. */
  lemma TakenBeforeExit(files: Files, states: seq<State>, actions: seq<Action>, i: nat)
    requires IsRun(files, states, actions) && i < |states|
    ensures forall f: nat :: Taken(states[i].takes, f) == if f < states[i].next then 1 else 0
    ensures states[i].next <= |files|
    ensures (exists w | 0 <= w < |states[i].workers| :: states[i].workers[w] == Exited) ==> states[i].next == |files|
  {
    RunKeepsInv(files, states, actions, i);
    forall f: nat ensures Taken(states[i].takes, f) == if f < states[i].next then 1 else 0 {
      TakenInOrder(states[i].takes, f);
    }
  }

  // --------------------------------------------------------------- progress

  function WorkOfWorker(files: Files, pc: WorkerPc): nat {
    match pc
    case NotStarted => 3
    case AtQueue => 2
    case Waiting => 1
    case Opening(_) => |OpsOfWorker(files, pc)| + 4
    case Working(ops) => |ops| + 3
    case Exited => 0
  }

  ghost function WorkAt(files: Files): WorkerPc -> nat {
    pc => WorkOfWorker(files, pc)
  }

  ghost function WorkOfFiles(files: Files, n: nat): nat
    decreases |files| - n
  {
    if n >= |files| then 0 else |OpsOf(files[n])| + 3 + WorkOfFiles(files, n + 1)
  }

  function WorkOfMain(main: MainPc, threads: nat): int {
    match main
    case Spawning(k) => 2 * threads + 4 + (threads - k)
    case Closing => 2 * threads + 3
    case Joining(k) => threads - k + 1
    case Done => 0
  }

  /** The steps left to the program. */
  ghost function Work(files: Files, s: State): int {
    Sum(s.workers, WorkAt(files)) + WorkOfFiles(files, s.next) + WorkOfMain(s.main, |s.workers|)
  }

  lemma QueueStepProgress(files: Files, s: State, w: nat)
    requires QueueInv(files, s) && w < |s.workers| && s.workers[w] == AtQueue
    ensures Work(files, StepQueue(files, s, w)) < Work(files, s)
  {
    hide Sum, TakenOnce;
    var pc := if s.next < |files| then Opening(s.next) else if s.finished then Exited else Waiting;
    var ws := s.workers[w := pc];
    SumAfterMove(s.workers, w, pc, WorkAt(files));
    if s.next < |files| {
      assert WakeAll(ws) == ws;
    }
  }

  lemma MainStepProgress(files: Files, s: State)
    requires QueueInv(files, s) && Enabled(s, MainStep)
    ensures Work(files, StepMain(files, s)) < Work(files, s)
  {
    hide Sum, WorkOfFiles, TakenOnce;
    SumAfterWaking(s.workers, WorkAt(files), 1);
    if s.main.Spawning? && s.main.k < |s.workers| {
      assert s.workers[s.main.k] == NotStarted;
      SumAfterMove(s.workers, s.main.k, AtQueue, WorkAt(files));
    }
  }

  /** Every step but a spurious wakeup uses up work. */
  lemma StepProgress(files: Files, s: State, a: Action)
    requires QueueInv(files, s) && Enabled(s, a) && !a.SpuriousWake?
    ensures Work(files, Step(files, s, a)) < Work(files, s)
  {
    hide Sum, WorkOfFiles, StepQueue, StepMain, QueueInv;
    if a.MainStep? {
      MainStepProgress(files, s);
    } else {
      var ws := s.workers;
      match ws[a.w]
      case AtQueue => QueueStepProgress(files, s, a.w);
      case Opening(f) => SumAfterMove(ws, a.w, Step(files, s, a).workers[a.w], WorkAt(files));
      case Working(ops) => SumAfterMove(ws, a.w, if ops == [] then AtQueue else Working(ops[1..]), WorkAt(files));
    }
  }

  lemma WorkIsNatural(files: Files, s: State)
    requires QueueInv(files, s)
    ensures Work(files, s) >= 0
  {
  }

  /** How many of the first k actions are spurious wakeups. */
  function Wakes(actions: seq<Action>, k: nat): nat
    requires k <= |actions|
  {
    if k == 0 then 0 else Wakes(actions, k - 1) + if actions[k - 1].SpuriousWake? then 1 else 0
  }

  lemma WakeProgress(files: Files, s: State, w: nat)
    requires Enabled(s, SpuriousWake(w))
    ensures Work(files, Step(files, s, SpuriousWake(w))) == Work(files, s) + 1
  {
    hide Sum, WorkOfFiles, WorkOfMain;
    SumAfterMove(s.workers, w, AtQueue, WorkAt(files));
  }

  /** A run has no more steps than the work it starts with, and two for each spurious wakeup. */
  lemma {:induction false} RunBounded(files: Files, states: seq<State>, actions: seq<Action>, k: nat)
    requires IsRun(files, states, actions) && k < |states|
    ensures k <= k + Work(files, states[k]) <= Work(files, states[0]) + 2 * Wakes(actions, k)
  {
    hide Work, QueueInv, Conserved, TakenOnce, Step, Init;
    RunKeepsInv(files, states, actions, k);
    WorkIsNatural(files, states[k]);
    if k > 0 {
      var s, a := states[k - 1], actions[k - 1];
      RunBounded(files, states, actions, k - 1);
      RunKeepsInv(files, states, actions, k - 1);
      if a.SpuriousWake? {
        WakeProgress(files, s, a.w);
      } else {
        StepProgress(files, s, a);
      }
    }
  }

  /** Until main is done some thread can make a step that is not a spurious wakeup. */
  lemma NoDeadlock(files: Files, s: State) returns (a: Action)
    requires QueueInv(files, s) && s.main != Done
    ensures Enabled(s, a) && !a.SpuriousWake?
  {
    a := MainStep;
    if s.main.Joining? && s.main.k < |s.workers| && s.workers[s.main.k] != Exited {
      a := WorkerStep(s.main.k);
    }
  }

  // ------------------------------------------- the total against the URL map

  /** The updates of whole lines: the total and the URL are counted one after the other. */
  predicate WholeLines(ops: seq<Op>) {
    || ops == []
    || (ops[0].IncRef? && WholeLines(ops[1..]))
    || (ops[0].AddTotal? && |ops| > 1 && ops[1].AddUrl? && ops[1].bytes == ops[0].bytes && WholeLines(ops[2..]))
  }

  /** The same, when the total of the current line may have been counted already. */
  predicate Midway(ops: seq<Op>) {
    WholeLines(ops) || (ops != [] && ops[0].AddUrl? && WholeLines(ops[1..]))
  }

  lemma {:induction false} FileOpsAreWholeLines(lines: seq<Line>)
    ensures WholeLines(FileOps(lines))
  {
    if lines != [] {
      var rest := FileOps(lines[1..]);
      FileOpsAreWholeLines(lines[1..]);
      var tail := [IncRef(lines[0].referer)] + rest;
      assert tail[1..] == rest;
      if lines[0].bytes > 0 {
        assert FileOps(lines)[2..] == tail;
      } else {
        assert FileOps(lines) == tail;
      }
    }
  }

  /** The bytes a worker has added to the total but not yet to the URL map. */
  ghost function GapAt(): WorkerPc -> nat {
    (pc: WorkerPc) => if pc.Working? && pc.ops != [] && pc.ops[0].AddUrl? then pc.ops[0].bytes else 0
  }

  ghost predicate GapInv(s: State) {
    && (MapSum(s.tally.urls) + Sum(s.workers, GapAt())) % SIZE_MODULUS == s.tally.total
    && forall w | 0 <= w < |s.workers| && s.workers[w].Working? :: Midway(s.workers[w].ops)
  }

  lemma UpdateKeepsGap(s: State, w: nat)
    requires GapInv(s) && w < |s.workers| && s.workers[w].Working? && s.workers[w].ops != []
    ensures var ops := s.workers[w].ops;
            (MapSum(Apply(s.tally, ops[0]).urls) + Sum(s.workers[w := Working(ops[1..])], GapAt())) % SIZE_MODULUS
            == Apply(s.tally, ops[0]).total
    ensures Midway(s.workers[w].ops[1..])
  {
    hide Sum, MapSum;
    var ops := s.workers[w].ops;
    SumAfterMove(s.workers, w, Working(ops[1..]), GapAt());
    var sum, sum' := Sum(s.workers, GapAt()), Sum(s.workers[w := Working(ops[1..])], GapAt());
    match ops[0]
    case AddTotal(b) =>
      assert ops[1..][1..] == ops[2..];
      PlusSum(MapSum(s.tally.urls) + sum, b);
    case AddUrl(u, b) =>
      MapSumAfterUrl(s.tally, u, b);
      PlusSum(MapSum(Apply(s.tally, ops[0]).urls), sum');
      PlusSum(MapSum(s.tally.urls) + b, sum');
    case IncRef(r) =>
      assert WholeLines(ops[1..]) && sum' == sum;
      assert Apply(s.tally, ops[0]).urls == s.tally.urls;
  }

  lemma UpdateStepKeepsGap(files: Files, s: State, w: nat)
    requires GapInv(s) && w < |s.workers| && s.workers[w].Working? && s.workers[w].ops != []
    ensures GapInv(Step(files, s, WorkerStep(w)))
  {
    hide Sum, MapSum, Midway, Apply;
    UpdateKeepsGap(s, w);
  }

  lemma GapAtStart(s: State)
    requires Init(s)
    ensures GapInv(s)
  {
    SumOfZeros(s.workers, GapAt());
  }

  lemma OtherStepKeepsGap(files: Files, s: State, a: Action)
    requires GapInv(s) && QueueInv(files, s) && Enabled(s, a)
    requires !(a.WorkerStep? && s.workers[a.w].Working? && s.workers[a.w].ops != [])
    ensures GapInv(Step(files, s, a))
  {
    hide Sum, MapSum, WholeLines;
    var ws, s' := s.workers, Step(files, s, a);
    match a
    case SpuriousWake(w) => SumAfterMove(ws, w, AtQueue, GapAt());
    case MainStep =>
      if s.main.Spawning? && s.main.k < |ws| {
        assert ws[s.main.k] == NotStarted;
        SumAfterMove(ws, s.main.k, AtQueue, GapAt());
      }
      SumAfterWaking(ws, GapAt(), 0);
    case WorkerStep(w) =>
      match ws[w]
      case AtQueue =>
        var pc := if s.next < |files| then Opening(s.next) else if s.finished then Exited else Waiting;
        SumAfterMove(ws, w, pc, GapAt());
        SumAfterWaking(ws[w := pc], GapAt(), 0);
      case Opening(f) =>
        var lines := if f < |files| then files[f] else None;
        FileOpsAreWholeLines(if lines.None? then [] else lines.value);
        FirstOfWholeLines(if lines.None? then [] else lines.value);
        SumAfterMove(ws, w, s'.workers[w], GapAt());
      case Working(_) => SumAfterMove(ws, w, AtQueue, GapAt());
  }

  lemma FirstOfWholeLines(lines: seq<Line>)
    ensures FileOps(lines) != [] ==> !FileOps(lines)[0].AddUrl?
    ensures Midway(FileOps(lines))
  {
    FileOpsAreWholeLines(lines);
  }

  /**
   * At every moment total_bytes is the sum of the URL map plus the bytes of the workers that
   * are between the two updates, modulo the word size.
   */
  lemma {:induction false} TotalAgainstUrls(files: Files, states: seq<State>, actions: seq<Action>, i: nat)
    requires IsRun(files, states, actions) && i < |states|
    ensures GapInv(states[i])
  {
    hide Sum, MapSum, Midway, Step, Fold, OpsOfWorker;
    if i == 0 {
      GapAtStart(states[0]);
    } else {
      var s, a := states[i - 1], actions[i - 1];
      TotalAgainstUrls(files, states, actions, i - 1);
      RunKeepsInv(files, states, actions, i - 1);
      if a.WorkerStep? && s.workers[a.w].Working? && s.workers[a.w].ops != [] {
        UpdateStepKeepsGap(files, s, a.w);
      } else {
        OtherStepKeepsGap(files, s, a);
      }
    }
  }
}

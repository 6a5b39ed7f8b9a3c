/** The logger queue: producers, one worker and a main thread that starts it and shuts it down
    (src/misc/Log.cpp). The threads interleave in atomic steps: one access to an atomic variable,
    one critical section, one notification or one write each. */
module Logger {

  type Line = string

  // The worker thread; a batch it has taken from the queue is written line by line. `Gone` is a
  // thread that is not there: not started yet, or joined.
  datatype Worker = Gone | Checking | Asleep | Writing(batch: seq<Line>) | Exited

  // Where the main thread is inside startWorker or shutdown.
  datatype Main = Free | Creating | Activating | Notifying | Joining | Deactivating

  // Where a call of enqueue is.
  datatype Call = WillWrite(line: Line) | WillPush(line: Line) | WillNotify

  datatype State = State(
    queue: seq<Line>,
    stop: bool,
    active: bool,
    worker: Worker,
    main: Main,
    calls: map<nat, Call>,
    // History: the lines pushed, in lock order; those the worker has written; those written
    // directly; how many had been pushed when the worker last found nothing more to do, and when
    // it was last told to stop; and whether it was there to be told.
    pushed: seq<Line>,
    written: seq<Line>,
    direct: seq<Line>,
    exitAt: nat,
    stopAt: nat,
    told: bool)

  function Initial(): State {
    State([], false, false, Gone, Free, map[], [], [], [], 0, 0, false)
  }

  datatype Step =
    // enqueue
    | Begin(id: nat, line: Line)
    | WriteDirect(id: nat)
    | Push(id: nat)
    | Notify(id: nat)
    // startWorker and shutdown
    | Start
    | Create
    | Activate
    | Stop
    | NotifyAll
    | Join
    | Deactivate
    // workerLoop
    | Check
    | WriteLine
    | EndBatch
    | WakeUp

  predicate Enabled(s: State, e: Step) {
    match e
    case Begin(id, _) => id !in s.calls
    case WriteDirect(id) => id in s.calls && s.calls[id].WillWrite?
    case Push(id) => id in s.calls && s.calls[id].WillPush?
    case Notify(id) => id in s.calls && s.calls[id].WillNotify?
    case Start => s.main.Free? && s.worker.Gone?
    case Create => s.main.Creating?
    case Activate => s.main.Activating?
    case Stop => s.main.Free?
    case NotifyAll => s.main.Notifying?
    case Join => s.main.Joining? && (s.worker.Gone? || s.worker.Exited?)
    case Deactivate => s.main.Deactivating?
    case Check => s.worker.Checking?
    case WriteLine => s.worker.Writing? && s.worker.batch != []
    case EndBatch => s.worker.Writing? && s.worker.batch == []
    case WakeUp => s.worker.Asleep?
  }

  // A notification moves a sleeping worker to its check and is lost on any other.
  function Woken(w: Worker): Worker {
    if w.Asleep? then Checking else w
  }

  function Apply(s: State, e: Step): State
    requires Enabled(s, e)
  {
    match e
    case Begin(id, line) => s.(calls := s.calls[id := if s.active then WillPush(line) else WillWrite(line)])
    case WriteDirect(id) => s.(calls := s.calls - {id}, direct := s.direct + [s.calls[id].line])
    case Push(id) =>
      var line := s.calls[id].line;
      s.(calls := s.calls[id := WillNotify], queue := s.queue + [line], pushed := s.pushed + [line])
    case Notify(id) => s.(calls := s.calls - {id}, worker := Woken(s.worker))
    case Start => s.(main := Creating, stop := false)
    case Create => s.(main := Activating, worker := Checking)
    case Activate => s.(main := Free, active := true)
    case Stop => s.(main := Notifying, stop := true, stopAt := |s.pushed|, told := !s.worker.Gone?)
    case NotifyAll => s.(main := Joining, worker := Woken(s.worker))
    case Join => s.(main := Deactivating, worker := Gone)
    case Deactivate => s.(main := Free, active := false)
    case Check => ApplyCheck(s)
    case WriteLine => s.(worker := Writing(s.worker.batch[1..]), written := s.written + [s.worker.batch[0]])
    case EndBatch => s.(worker := Checking)
    case WakeUp => s.(worker := Checking)
  }

  // The critical section of the worker: wait for something to do, take the whole queue, and leave
  // when there is nothing and never will be.
  function ApplyCheck(s: State): State {
    if s.queue == [] && !s.stop then s.(worker := Asleep)
    else if s.stop && s.queue == [] then s.(worker := Exited, exitAt := |s.pushed|)
    else s.(worker := Writing(s.queue), queue := [])
  }

  // --- Runs ---

  predicate Possible(s: State, run: seq<Step>)
    decreases |run|
  {
    run == [] || (Enabled(s, run[0]) && Possible(Apply(s, run[0]), run[1..]))
  }

  function After(s: State, run: seq<Step>): State
    requires Possible(s, run)
    decreases |run|
  {
    if run == [] then s else After(Apply(s, run[0]), run[1..])
  }

  // --- Invariants ---

  function Local(s: State): seq<Line> {
    if s.worker.Writing? then s.worker.batch else []
  }

  predicate Running(s: State) {
    !s.worker.Gone? && !s.worker.Exited?
  }

  // Somebody is about to notify.
  ghost predicate NotifyPending(s: State) {
    s.main.Notifying? || exists id :: id in s.calls && s.calls[id].WillNotify?
  }

  // No line is lost, repeated or reordered.
  ghost predicate Conserved(s: State) {
    s.written + Local(s) + s.queue == s.pushed
  }

  // A worker that is not running has written everything up to its last look at the queue.
  ghost predicate ExitOK(s: State) {
    && s.exitAt <= |s.pushed| && s.stopAt <= |s.pushed|
    && (!Running(s) ==> |s.written| == s.exitAt)
    && (s.stop && s.told && !Running(s) ==> s.stopAt <= s.exitAt)
  }

  // A sleeping worker has nothing to do, or is about to be woken.
  ghost predicate NoLostWakeup(s: State) {
    s.worker.Asleep? ==> (s.queue == [] && !s.stop) || NotifyPending(s)
  }

  ghost predicate MainOK(s: State) {
    && (s.main.Notifying? || s.main.Joining? || s.main.Deactivating? ==> s.stop)
    && (s.main.Creating? ==> s.worker.Gone? && !s.stop)
    && (s.main.Activating? ==> Running(s) && !s.stop)
    && (s.main.Deactivating? ==> s.worker.Gone?)
    && (s.worker.Exited? ==> s.stop && !s.main.Free?)
    && (s.main.Free? && Running(s) ==> !s.stop)
    // From the notification on the worker never sleeps again.
    && (s.main.Joining? ==> !s.worker.Asleep?)
  }

  ghost predicate Inv(s: State) {
    Conserved(s) && ExitOK(s) && NoLostWakeup(s) && MainOK(s)
  }

  lemma InitialInv()
    ensures Inv(Initial())
  {
  }

  lemma StepKeepsConserved(s: State, e: Step)
    requires Inv(s) && Enabled(s, e)
    ensures Conserved(Apply(s, e))
  {
    hide ExitOK, NoLostWakeup;
    var t := Apply(s, e);
    if e.Check? || e.WriteLine? || e.EndBatch? {
      WorkerKeepsConserved(s, e);
    } else {
      assert Local(t) == Local(s) && t.written == s.written;
      if e.Push? {
        assert s.written + Local(s) + (s.queue + [s.calls[e.id].line]) == s.pushed + [s.calls[e.id].line];
      }
    }
  }

  lemma WorkerKeepsConserved(s: State, e: Step)
    requires Conserved(s) && Enabled(s, e) && (e.Check? || e.WriteLine? || e.EndBatch?)
    ensures Conserved(Apply(s, e))
  {
    if e.WriteLine? {
      var batch := s.worker.batch;
      assert batch == [batch[0]] + batch[1..];
    }
  }

  lemma StepKeepsExit(s: State, e: Step)
    requires Inv(s) && Enabled(s, e)
    ensures ExitOK(Apply(s, e))
  {
  }

  lemma StepKeepsWakeup(s: State, e: Step)
    requires Inv(s) && Enabled(s, e)
    ensures NoLostWakeup(Apply(s, e))
  {
    var t := Apply(s, e);
    if e.Push? {
      assert e.id in t.calls && t.calls[e.id].WillNotify?;
    } else if !e.Notify? && exists id :: id in s.calls && s.calls[id].WillNotify? {
      var id :| id in s.calls && s.calls[id].WillNotify?;
      assert id in t.calls && t.calls[id].WillNotify?;
    }
  }

  lemma StepKeepsMain(s: State, e: Step)
    requires Inv(s) && Enabled(s, e)
    ensures MainOK(Apply(s, e))
  {
  }

  lemma StepKeepsInv(s: State, e: Step)
    requires Inv(s) && Enabled(s, e)
    ensures Inv(Apply(s, e))
  {
    hide Apply, Conserved, ExitOK, NoLostWakeup, MainOK;
    StepKeepsConserved(s, e);
    StepKeepsExit(s, e);
    StepKeepsWakeup(s, e);
    StepKeepsMain(s, e);
  }

  /** The invariants hold after every interleaving of any producers with the worker and the main
      thread. */
  lemma {:induction false} RunKeepsInv(s: State, run: seq<Step>)
    requires Inv(s) && Possible(s, run)
    ensures Inv(After(s, run))
    decreases |run|
  {
    hide Inv, Apply;
    if run != [] {
      StepKeepsInv(s, run[0]);
      RunKeepsInv(Apply(s, run[0]), run[1..]);
    }
  }

  // --- What has been logged ---

  lemma WrittenIsPrefix(s: State)
    requires Conserved(s)
    ensures s.written <= s.pushed
  {
  }

  /** Whenever the worker is not there, the written lines are exactly those that were pushed before
      its last look at the queue: a line is still in the queue if and only if it came later. */
  lemma WrittenExactlyBeforeExit(s: State, i: nat)
    requires Inv(s) && !Running(s) && i < |s.pushed|
    ensures s.written == s.pushed[..s.exitAt] && s.queue == s.pushed[s.exitAt..]
    ensures i < |s.written| <==> i < s.exitAt
  {
    assert Local(s) == [];
    assert s.written + [] + s.queue == s.written + s.queue;
  }

  // Without a worker, and without a new one, nothing more is written.
  lemma {:induction false} NoWorkerNoWriting(s: State, run: seq<Step>)
    requires !Running(s) && Possible(s, run) && Create !in run
    ensures !Running(After(s, run)) && After(s, run).written == s.written
    decreases |run|
  {
    if run != [] {
      assert run[0] in run;
      NoWorkerNoWriting(Apply(s, run[0]), run[1..]);
    }
  }

  // A running worker does not leave before it has seen all that is pushed by now.
  lemma {:induction false} WorkerSeesAll(s: State, run: seq<Step>, n: nat)
    requires Inv(s) && Running(s) && |s.pushed| >= n
    requires Possible(s, run) && Create !in run && !Running(After(s, run))
    ensures |After(s, run).written| >= n
    decreases |run|
  {
    hide Conserved, NoLostWakeup, MainOK, Possible, After;
    RunUnfolds(s, run);
    var t := Apply(s, run[0]);
    assert run[0] in run;
    StepKeepsInv(s, run[0]);
    if Running(t) {
      WorkerSeesAll(t, run[1..], n);
    } else {
      NoWorkerNoWriting(t, run[1..]);
    }
  }

  lemma RunUnfolds(s: State, run: seq<Step>)
    requires Possible(s, run)
    ensures run != [] ==>
              && Enabled(s, run[0]) && Possible(Apply(s, run[0]), run[1..])
              && After(s, run) == After(Apply(s, run[0]), run[1..])
    ensures run == [] ==> After(s, run) == s
  {
  }

  /** Whether a pushed line is written is decided when it is pushed: if the worker is there, the line
      is written by the time the worker has left; if not, it stays in the queue for good, unless a
      new worker is started. */
  lemma WrittenIffWorkerThere(s: State, id: nat, run: seq<Step>)
    requires Inv(s) && Enabled(s, Push(id)) && Possible(Apply(s, Push(id)), run) && Create !in run
    requires !Running(After(Apply(s, Push(id)), run))
    ensures |s.pushed| < |After(Apply(s, Push(id)), run).written| <==> Running(s)
  {
    hide Conserved, NoLostWakeup, MainOK, Possible, After;
    var t := Apply(s, Push(id));
    StepKeepsInv(s, Push(id));
    if Running(s) {
      WorkerSeesAll(t, run, |s.pushed| + 1);
    } else {
      NoWorkerNoWriting(t, run);
    }
  }

  // Until the next shutdown the number of lines pushed before this one stands.
  lemma {:induction false} StopAtStands(s: State, run: seq<Step>)
    requires Possible(s, run) && Stop !in run
    ensures After(s, run).stopAt == s.stopAt && After(s, run).told == s.told
    decreases |run|
  {
    if run != [] {
      assert run[0] in run;
      StopAtStands(Apply(s, run[0]), run[1..]);
    }
  }

  lemma {:induction false} PushedGrows(s: State, run: seq<Step>)
    requires Possible(s, run)
    ensures s.pushed <= After(s, run).pushed
    decreases |run|
  {
    if run != [] {
      PushedGrows(Apply(s, run[0]), run[1..]);
    }
  }

  lemma {:induction false} RunsJoin(s: State, a: seq<Step>, b: seq<Step>)
    ensures Possible(s, a + b) <==> Possible(s, a) && Possible(After(s, a), b)
    ensures Possible(s, a + b) ==> After(s, a + b) == After(After(s, a), b)
    decreases |a|
  {
    hide Enabled, Apply;
    if a == [] {
      assert a + b == b;
    } else {
      assert (a + b)[0] == a[0] && (a + b)[1..] == a[1..] + b;
      if Enabled(s, a[0]) {
        RunsJoin(Apply(s, a[0]), a[1..], b);
      }
    }
  }

  /** Every line pushed before shutdown sets the stop flag is written, once and in its place, by the
      time shutdown has joined the worker, whatever the producers do meanwhile. */
  lemma ShutdownWritesEverything(before: seq<Step>, during: seq<Step>)
    requires Possible(Initial(), before)
    requires var s := After(Initial(), before);
             s.main.Free? && Running(s) && Possible(Apply(s, Stop), during) && Stop !in during
    requires After(Apply(After(Initial(), before), Stop), during).main.Deactivating?
    ensures var s, end := After(Initial(), before), After(Apply(After(Initial(), before), Stop), during);
            s.pushed <= end.written <= end.pushed
  {
    hide Possible, After, Conserved, NoLostWakeup, MainOK;
    var s := After(Initial(), before);
    var stopped := Apply(s, Stop);
    var end := After(stopped, during);
    InitialInv();
    RunKeepsInv(Initial(), before);
    StepKeepsInv(s, Stop);
    RunKeepsInv(stopped, during);
    StopAtStands(stopped, during);
    PushedGrows(stopped, during);
    WrittenIsPrefix(end);
    Joined(end);
  }

  lemma Joined(s: State)
    requires MainOK(s) && s.main.Deactivating?
    ensures s.stop && !Running(s)
  {
  }

  /** A main thread that waits for the worker does not wait in vain: the worker is never asleep
      then, so it can take a step or has already left. */
  lemma JoinNeverBlocks(s: State)
    requires Inv(s) && s.main.Joining?
    ensures Enabled(s, Join) || Enabled(s, Check) || Enabled(s, WriteLine) || Enabled(s, EndBatch)
  {
  }

  // --- How long a shutdown takes ---

  function WorkerStep(s: State): Step
    requires Running(s)
  {
    match s.worker
    case Checking => Check
    case Asleep => WakeUp
    case Writing(batch) => if batch == [] then EndBatch else WriteLine
  }

  // The worker's own steps until it leaves, if nothing more is pushed.
  function Remaining(s: State): nat {
    var checks := if s.queue == [] then 1 else |s.queue| + 3;
    match s.worker
    case Checking => checks
    case Asleep => checks + 1
    case Writing(batch) => |batch| + 1 + checks
    case _ => 0
  }

  function WorkerRun(s: State, n: nat): State
    decreases n
  {
    if n == 0 || !Running(s) then s
    else
      assert Enabled(s, WorkerStep(s));
      WorkerRun(Apply(s, WorkerStep(s)), n - 1)
  }

  lemma WorkerStepCounts(s: State)
    requires s.stop && Running(s)
    ensures Enabled(s, WorkerStep(s)) && Remaining(Apply(s, WorkerStep(s))) == Remaining(s) - 1
    ensures Apply(s, WorkerStep(s)).stop && Apply(s, WorkerStep(s)).pushed == s.pushed
    ensures Running(Apply(s, WorkerStep(s))) <==> Remaining(s) > 1
  {
  }

  /** Once told to stop, the worker leaves after exactly as many of its own steps as there are lines
      left, and a few more; it has then written everything. */
  lemma {:induction false} ShutdownTakes(s: State, n: nat)
    requires Inv(s) && s.stop && Running(s)
    ensures Running(WorkerRun(s, n)) <==> n < Remaining(s)
    ensures n >= Remaining(s) ==> WorkerRun(s, n).worker.Exited? && WorkerRun(s, n).written == s.pushed
    decreases n
  {
    hide Inv, Apply, Enabled;
    if n > 0 {
      WorkerStepCounts(s);
      var t := Apply(s, WorkerStep(s));
      StepKeepsInv(s, WorkerStep(s));
      if Running(t) {
        ShutdownTakes(t, n - 1);
      } else {
        LeavesDone(s);
      }
    }
  }

  function WorkerSteps(run: seq<Step>): nat {
    if run == [] then 0
    else WorkerSteps(run[1..]) + if run[0].Check? || run[0].WriteLine? || run[0].EndBatch? then 1 else 0
  }

  function Pushes(run: seq<Step>): nat {
    if run == [] then 0 else Pushes(run[1..]) + if run[0].Push? then 1 else 0
  }

  lemma StepCounts(s: State, e: Step)
    requires MainOK(s) && s.stop && Enabled(s, e) && e != Start
    ensures Apply(s, e).stop
    ensures Remaining(Apply(s, e)) + WorkerSteps([e]) <= Remaining(s) + 3 * Pushes([e])
  {
    assert [e][1..] == [];
  }

  /** However the producers go on meanwhile, a stopping worker takes no more steps than it had left,
      and three for every line that is pushed. */
  lemma {:induction false} ShutdownTakesAtMost(s: State, run: seq<Step>)
    requires Inv(s) && s.stop && Possible(s, run) && Start !in run
    ensures WorkerSteps(run) + Remaining(After(s, run)) <= Remaining(s) + 3 * Pushes(run)
    decreases |run|
  {
    hide Inv, Conserved, ExitOK, NoLostWakeup, MainOK, Apply, Enabled, Remaining;
    if run != [] {
      var e, rest := run[0], run[1..];
      var t := Apply(s, e);
      assert e in run;
      MainPart(s);
      StepCounts(s, e);
      StepKeepsInv(s, e);
      assert [e][1..] == [];
      ShutdownTakesAtMost(t, rest);
    }
  }

  lemma MainPart(s: State)
    requires Inv(s)
    ensures MainOK(s)
  {
  }

  lemma LeavesDone(s: State)
    requires Inv(s) && s.stop && Running(s) && !Running(Apply(s, WorkerStep(s)))
    ensures Apply(s, WorkerStep(s)).worker.Exited? && Apply(s, WorkerStep(s)).written == s.pushed
  {
  }

  // --- Where a line goes ---

  // The steps in which producers write their lines themselves.
  function DirectWrites(run: seq<Step>): nat {
    if run == [] then 0 else DirectWrites(run[1..]) + if run[0].WriteDirect? then 1 else 0
  }

  // No other call of this producer begins.
  ghost predicate SameCall(run: seq<Step>, id: nat) {
    forall k :: 0 <= k < |run| && run[k].Begin? ==> run[k].id != id
  }

  // The run takes the step once, at j.
  ghost predicate OnceAt(run: seq<Step>, e: Step, j: nat) {
    j < |run| && forall k :: 0 <= k < |run| ==> (run[k] == e <==> k == j)
  }

  lemma {:induction false} DirectGrows(s: State, run: seq<Step>)
    requires Possible(s, run)
    ensures s.direct <= After(s, run).direct
    ensures |After(s, run).direct| == |s.direct| + DirectWrites(run)
    decreases |run|
  {
    if run != [] {
      DirectGrows(Apply(s, run[0]), run[1..]);
    }
  }

  lemma {:induction false} PushedCounts(s: State, run: seq<Step>)
    requires Possible(s, run)
    ensures |After(s, run).pushed| == |s.pushed| + Pushes(run)
    decreases |run|
  {
    if run != [] {
      PushedCounts(Apply(s, run[0]), run[1..]);
    }
  }

  // A producer whose call is over takes no step before its next call.
  lemma {:induction false} OverIsOver(s: State, id: nat, run: seq<Step>)
    requires id !in s.calls && Possible(s, run) && SameCall(run, id)
    ensures WriteDirect(id) !in run && Push(id) !in run && Notify(id) !in run
    ensures id !in After(s, run).calls
    decreases |run|
  {
    if run != [] {
      OverIsOver(Apply(s, run[0]), id, run[1..]);
    }
  }

  // A producer that has queued its line only notifies the worker.
  lemma {:induction false} OnlyNotifies(s: State, id: nat, run: seq<Step>)
    requires id in s.calls && s.calls[id].WillNotify? && Possible(s, run) && SameCall(run, id)
    ensures WriteDirect(id) !in run && Push(id) !in run
    ensures id in After(s, run).calls ==> After(s, run).calls[id].WillNotify?
    decreases |run|
  {
    if run != [] {
      if run[0] == Notify(id) {
        OverIsOver(Apply(s, run[0]), id, run[1..]);
      } else {
        OnlyNotifies(Apply(s, run[0]), id, run[1..]);
      }
    }
  }

  // What the step of another call, of the worker or of the main thread leaves as it is.
  lemma OthersStep(s: State, e: Step, id: nat)
    requires id in s.calls && Enabled(s, e) && SameCall([e], id)
    requires e != WriteDirect(id) && e != Push(id) && e != Notify(id)
    ensures id in Apply(s, e).calls && Apply(s, e).calls[id] == s.calls[id]
    ensures |Apply(s, e).direct| == |s.direct| + if e.WriteDirect? then 1 else 0
    ensures |Apply(s, e).pushed| == |s.pushed| + if e.Push? then 1 else 0
  {
    assert [e][0] == e;
  }

  // The one step of the run that writes the line itself adds it.
  ghost predicate WrittenOnce(s: State, id: nat, line: Line, run: seq<Step>)
    requires Possible(s, run)
  {
    exists j: nat ::
      && OnceAt(run, WriteDirect(id), j)
      && |s.direct| + DirectWrites(run[..j]) < |After(s, run).direct|
      && After(s, run).direct[|s.direct| + DirectWrites(run[..j])] == line
  }

  // The one step of the run that queues the line adds it.
  ghost predicate QueuedOnce(s: State, id: nat, line: Line, run: seq<Step>)
    requires Possible(s, run)
  {
    exists j: nat ::
      && OnceAt(run, Push(id), j)
      && |s.pushed| + Pushes(run[..j]) < |After(s, run).pushed|
      && After(s, run).pushed[|s.pushed| + Pushes(run[..j])] == line
  }

  lemma WrittenLater(s: State, id: nat, line: Line, run: seq<Step>)
    requires id in s.calls && run != [] && Possible(s, run) && SameCall(run, id)
    requires run[0] != WriteDirect(id) && run[0] != Push(id) && run[0] != Notify(id)
    requires WrittenOnce(Apply(s, run[0]), id, line, run[1..])
    ensures WrittenOnce(s, id, line, run)
  {
    hide Enabled, Apply, Possible, After;
    RunUnfolds(s, run);
    OthersStep(s, run[0], id);
    var t, rest := Apply(s, run[0]), run[1..];
    var j: nat :| && OnceAt(rest, WriteDirect(id), j)
                  && |t.direct| + DirectWrites(rest[..j]) < |After(t, rest).direct|
                  && After(t, rest).direct[|t.direct| + DirectWrites(rest[..j])] == line;
    assert run[..j + 1][1..] == rest[..j];
    assert OnceAt(run, WriteDirect(id), j + 1);
  }

  lemma QueuedLater(s: State, id: nat, line: Line, run: seq<Step>)
    requires id in s.calls && run != [] && Possible(s, run) && SameCall(run, id)
    requires run[0] != WriteDirect(id) && run[0] != Push(id) && run[0] != Notify(id)
    requires QueuedOnce(Apply(s, run[0]), id, line, run[1..])
    ensures QueuedOnce(s, id, line, run)
  {
    hide Enabled, Apply, Possible, After;
    RunUnfolds(s, run);
    OthersStep(s, run[0], id);
    var t, rest := Apply(s, run[0]), run[1..];
    var j: nat :| && OnceAt(rest, Push(id), j)
                  && |t.pushed| + Pushes(rest[..j]) < |After(t, rest).pushed|
                  && After(t, rest).pushed[|t.pushed| + Pushes(rest[..j])] == line;
    assert run[..j + 1][1..] == rest[..j];
    assert OnceAt(run, Push(id), j + 1);
  }

  lemma {:induction false} WritesItself(s: State, id: nat, line: Line, run: seq<Step>)
    requires id in s.calls && s.calls[id] == WillWrite(line) && Possible(s, run) && SameCall(run, id)
    ensures Push(id) !in run && Notify(id) !in run
    ensures if id in After(s, run).calls then WriteDirect(id) !in run && Enabled(After(s, run), WriteDirect(id))
            else WrittenOnce(s, id, line, run)
    decreases |run|
  {
    hide Possible, After, WrittenOnce;
    RunUnfolds(s, run);
    if run != [] {
      if run[0] == WriteDirect(id) {
        WrittenNow(s, id, line, run);
      } else {
        NotYet(s, id, run);
        WritesItself(Apply(s, run[0]), id, line, run[1..]);
        if id !in After(s, run).calls {
          WrittenLater(s, id, line, run);
        }
      }
    }
  }

  // A call that is still to write or to queue its line stays where it is until it does.
  lemma NotYet(s: State, id: nat, run: seq<Step>)
    requires id in s.calls && !s.calls[id].WillNotify? && run != [] && Possible(s, run) && SameCall(run, id)
    requires run[0] != (if s.calls[id].WillWrite? then WriteDirect(id) else Push(id))
    ensures run[0] != WriteDirect(id) && run[0] != Push(id) && run[0] != Notify(id)
    ensures id in Apply(s, run[0]).calls && Apply(s, run[0]).calls[id] == s.calls[id]
    ensures SameCall(run[1..], id)
  {
    hide Apply;
    OthersStep(s, run[0], id);
  }

  lemma WrittenNow(s: State, id: nat, line: Line, run: seq<Step>)
    requires id in s.calls && s.calls[id] == WillWrite(line)
    requires run != [] && run[0] == WriteDirect(id) && Possible(s, run) && SameCall(run, id)
    ensures Push(id) !in run && Notify(id) !in run && id !in After(s, run).calls && WrittenOnce(s, id, line, run)
  {
    var t := Apply(s, run[0]);
    OverIsOver(t, id, run[1..]);
    DirectGrows(t, run[1..]);
    assert OnceAt(run, WriteDirect(id), 0);
  }

  lemma {:induction false} QueuesItsLine(s: State, id: nat, line: Line, run: seq<Step>)
    requires id in s.calls && s.calls[id] == WillPush(line) && Possible(s, run) && SameCall(run, id)
    ensures WriteDirect(id) !in run
    ensures if id in After(s, run).calls && After(s, run).calls[id].WillPush? then Push(id) !in run
            else QueuedOnce(s, id, line, run)
    decreases |run|
  {
    hide Possible, After, QueuedOnce;
    RunUnfolds(s, run);
    if run != [] {
      if run[0] == Push(id) {
        QueuedNow(s, id, line, run);
      } else {
        NotYet(s, id, run);
        QueuesItsLine(Apply(s, run[0]), id, line, run[1..]);
        if !(id in After(s, run).calls && After(s, run).calls[id].WillPush?) {
          QueuedLater(s, id, line, run);
        }
      }
    }
  }

  lemma QueuedNow(s: State, id: nat, line: Line, run: seq<Step>)
    requires id in s.calls && s.calls[id] == WillPush(line)
    requires run != [] && run[0] == Push(id) && Possible(s, run) && SameCall(run, id)
    ensures WriteDirect(id) !in run && QueuedOnce(s, id, line, run)
    ensures !(id in After(s, run).calls && After(s, run).calls[id].WillPush?)
  {
    var t := Apply(s, run[0]);
    OnlyNotifies(t, id, run[1..]);
    PushedGrows(t, run[1..]);
    assert OnceAt(run, Push(id), 0);
  }

  /** A line that finds the logger inactive never gets to the queue: by the time its call is over it
      has been written directly, in exactly one step, and has the place of that step among the lines
      written directly, which have one place for every such step. */
  lemma InactiveLineIsDirect(s: State, id: nat, line: Line, run: seq<Step>)
    requires id !in s.calls && !s.active && Possible(Apply(s, Begin(id, line)), run) && SameCall(run, id)
    ensures var end := After(Apply(s, Begin(id, line)), run);
            && Push(id) !in run && Notify(id) !in run
            && s.direct <= end.direct && |end.direct| == |s.direct| + DirectWrites(run)
            && if id in end.calls then WriteDirect(id) !in run && Enabled(end, WriteDirect(id))
               else exists j: nat ::
                   && OnceAt(run, WriteDirect(id), j)
                   && |s.direct| + DirectWrites(run[..j]) < |end.direct|
                   && end.direct[|s.direct| + DirectWrites(run[..j])] == line
  {
    hide Possible, After, DirectWrites;
    var t := Apply(s, Begin(id, line));
    DirectGrows(t, run);
    WritesItself(t, id, line, run);
  }

  /** A line that finds the logger active is never written directly: once its call is past the push
      it has been pushed in exactly one step, and has the place of that step among the pushed lines. */
  lemma ActiveLineIsPushed(s: State, id: nat, line: Line, run: seq<Step>)
    requires id !in s.calls && s.active && Possible(Apply(s, Begin(id, line)), run) && SameCall(run, id)
    ensures var end := After(Apply(s, Begin(id, line)), run);
            && WriteDirect(id) !in run
            && s.pushed <= end.pushed && |end.pushed| == |s.pushed| + Pushes(run)
            && if id in end.calls && end.calls[id].WillPush? then Push(id) !in run && Enabled(end, Push(id))
               else exists j: nat ::
                   && OnceAt(run, Push(id), j)
                   && |s.pushed| + Pushes(run[..j]) < |end.pushed|
                   && end.pushed[|s.pushed| + Pushes(run[..j])] == line
  {
    hide Possible, After, Pushes;
    var t := Apply(s, Begin(id, line));
    PushedGrows(t, run);
    PushedCounts(t, run);
    QueuesItsLine(t, id, line, run);
  }

  // --- The line that comes too late ---

  // The logger is started, a producer finds it active, and shutdown runs to its end before that
  // producer gets to the queue.
  function LateRun(line: Line): seq<Step> {
    [Start, Create, Activate, Begin(0, line), Stop, Check, NotifyAll, Join, Deactivate, Push(0), Notify(0)]
  }

  /** That producer's line is neither written nor refused: it stays in the queue of a logger that has
      been shut down. */
  lemma LateLineIsStranded(line: Line)
    ensures Possible(Initial(), LateRun(line))
    ensures var end := After(Initial(), LateRun(line));
            end.queue == [line] && end.written == end.direct == [] && end.worker.Gone? && end.main.Free? && !end.active
  {
    hide Possible, After;
    var begin := [Start, Create, Activate, Begin(0, line), Stop];
    var finish := [Check, NotifyAll, Join, Deactivate, Push(0), Notify(0)];
    assert LateRun(line) == begin + finish;
    var between := State([], true, true, Checking, Notifying, map[0 := WillPush(line)], [], [], [], 0, 0, true);
    StartAndStop(line, between);
    ShutdownThenPush(line, between);
    RunsJoin(Initial(), begin, finish);
  }

  lemma StartAndStop(line: Line, between: State)
    requires between == State([], true, true, Checking, Notifying, map[0 := WillPush(line)], [], [], [], 0, 0, true)
    ensures var run := [Start, Create, Activate, Begin(0, line), Stop];
            Possible(Initial(), run) && After(Initial(), run) == between
  {
    hide Possible, After;
    var s1 := Apply(Initial(), Start);
    var s2 := Apply(s1, Create);
    var s3 := Apply(s2, Activate);
    var s4 := Apply(s3, Begin(0, line));
    NoSteps(between);
    Prepend(s4, Stop, [], [Stop]);
    Prepend(s3, Begin(0, line), [Stop], [Begin(0, line), Stop]);
    Prepend(s2, Activate, [Begin(0, line), Stop], [Activate, Begin(0, line), Stop]);
    Prepend(s1, Create, [Activate, Begin(0, line), Stop], [Create, Activate, Begin(0, line), Stop]);
    var rest := [Create, Activate, Begin(0, line), Stop];
    Prepend(Initial(), Start, rest, [Start, Create, Activate, Begin(0, line), Stop]);
  }

  lemma ShutdownThenPush(line: Line, between: State)
    requires between == State([], true, true, Checking, Notifying, map[0 := WillPush(line)], [], [], [], 0, 0, true)
    ensures var run := [Check, NotifyAll, Join, Deactivate, Push(0), Notify(0)];
            && Possible(between, run)
            && var end := After(between, run);
               && end.queue == [line] && end.written == end.direct == []
               && end.worker.Gone? && end.main.Free? && !end.active
  {
    hide Possible, After;
    var s1 := Apply(between, Check);
    var s2 := Apply(s1, NotifyAll);
    var s3 := Apply(s2, Join);
    var s4 := Apply(s3, Deactivate);
    var s5 := Apply(s4, Push(0));
    NoSteps(Apply(s5, Notify(0)));
    Prepend(s5, Notify(0), [], [Notify(0)]);
    Prepend(s4, Push(0), [Notify(0)], [Push(0), Notify(0)]);
    Prepend(s3, Deactivate, [Push(0), Notify(0)], [Deactivate, Push(0), Notify(0)]);
    Prepend(s2, Join, [Deactivate, Push(0), Notify(0)], [Join, Deactivate, Push(0), Notify(0)]);
    Prepend(s1, NotifyAll, [Join, Deactivate, Push(0), Notify(0)], [NotifyAll, Join, Deactivate, Push(0), Notify(0)]);
    var rest := [NotifyAll, Join, Deactivate, Push(0), Notify(0)];
    Prepend(between, Check, rest, [Check, NotifyAll, Join, Deactivate, Push(0), Notify(0)]);
  }

  lemma NoSteps(s: State)
    ensures Possible(s, []) && After(s, []) == s
  {
  }

  lemma Prepend(s: State, e: Step, rest: seq<Step>, run: seq<Step>)
    requires run == [e] + rest && Enabled(s, e) && Possible(Apply(s, e), rest)
    ensures Possible(s, run) && After(s, run) == After(Apply(s, e), rest)
  {
    assert run[1..] == rest;
  }
}

/**
 What every interleaving of the worker pool keeps, what a returning call has done, and why
 every call returns.
 */
module WorkerPoolSafety {
  import opened WorkerPool

  ghost predicate InCall(s: State) {
    s.main.Dispatched? || s.main.MainInFn? || s.main.CheckDone? || s.main.WaitDone?
  }

  /** Worker wk has finished its part of the latest job and counted itself done. */
  ghost predicate Reported(wk: Worker, published: nat) {
    wk.served == published && (wk.pc.Check? || wk.pc.WaitWork? || wk.pc.Exited?)
  }

  // ---- sums over the workers -----------------------------------------------

  ghost function Sum(vals: seq<nat>): nat {
    if vals == [] then 0 else vals[0] + Sum(vals[1..])
  }

  lemma {:induction false} SumUpdate(vals: seq<nat>, i: nat, v: nat)
    requires i < |vals|
    ensures Sum(vals[i := v]) + vals[i] == Sum(vals) + v
  {
    if i == 0 {
      assert vals[0 := v][1..] == vals[1..];
    } else {
      assert vals[i := v][1..] == vals[1..][i - 1 := v];
      SumUpdate(vals[1..], i - 1, v);
    }
  }

  lemma {:induction false} SumBound(vals: seq<nat>, top: nat)
    requires forall i :: 0 <= i < |vals| ==> vals[i] <= top
    ensures Sum(vals) <= top * |vals|
    ensures Sum(vals) == top * |vals| ==> forall i :: 0 <= i < |vals| ==> vals[i] == top
    ensures (forall i :: 0 <= i < |vals| ==> vals[i] == top) ==> Sum(vals) == top * |vals|
  {
    if vals != [] {
      SumBound(vals[1..], top);
      assert top * |vals| == top + top * |vals[1..]|;
      if Sum(vals) == top * |vals| {
        forall i | 0 <= i < |vals|
          ensures vals[i] == top
        {
          if i > 0 { assert vals[i] == vals[1..][i - 1]; }
        }
      }
    }
  }

  ghost function Marks(ws: seq<Worker>, published: nat): seq<nat> {
    seq(|ws|, i requires 0 <= i < |ws| => if Reported(ws[i], published) then 1 else 0)
  }

  ghost function ReportedCount(s: State): nat {
    Sum(Marks(s.workers, s.published))
  }

  // ---- the invariant ---------------------------------------------------------

  ghost predicate WorkerInv(s: State, w: nat)
    requires w < |s.workers| && s.nThreads > 0
  {
    var wk := s.workers[w];
    var slice := Slice(s.job, s.nThreads, w + 1);
    && wk.seen == wk.served % U32
    && (wk.served == s.published || wk.served + 1 == s.published)
    && wk.depth == (if wk.pc.InFn? then 1 else 0)
    && (wk.served != s.published ==> InCall(s) && wk.pc.Check? && wk.log == [])
    && (wk.pc.Snapped? ==> InCall(s) && wk.pc.job == s.job && wk.log == [])
    && (wk.pc.InFn? ==> InCall(s) && wk.pc.job == s.job && wk.log == slice)
    && (wk.pc.Reporting? ==> InCall(s) && wk.log == slice)
    && (Reported(wk, s.published) ==> wk.log == slice)
    && (wk.pc.WaitWork? ==> wk.served == s.published && !s.shutdown)
    && (wk.pc.Exited? ==> s.shutdown)
  }

  ghost predicate MainInv(s: State)
    requires s.nThreads > 0
  {
    && s.mainDepth == (if s.main.MainInFn? then 1 else 0)
    && (s.main.Dispatched? ==> s.main.job == s.job)
    && (s.main.MainInFn? ==> s.main.job == s.job)
    && s.mainLog == (if s.main.Dispatched? then [] else Slice(s.job, s.nThreads, 0))
    && (InCall(s) ==> s.nThreads > 1 && s.published > 0 && s.done == ReportedCount(s))
    && (!InCall(s) ==> forall w :: 0 <= w < |s.workers| ==> Reported(s.workers[w], s.published))
    && (s.main.WaitDone? ==> s.done < s.nWorkers)
    && (s.main.Joining? ==>
          s.main.next <= |s.workers| && forall w :: 0 <= w < s.main.next ==> s.workers[w].pc.Exited?)
  }

  ghost predicate Inv(s: State) {
    if s.main.Closed? then s == NO_POOL
    else
      && 1 <= s.nThreads <= MAX_THREADS
      && |s.workers| == s.nWorkers == s.nThreads - 1
      && s.initialized
      && s.job.nRows < U64
      && s.generation == (s.published + if s.shutdown then 1 else 0) % U32
      && (s.shutdown <==> s.main.Joining?)
      && MainInv(s)
      && forall w :: 0 <= w < |s.workers| ==> WorkerInv(s, w)
  }

  lemma MarksUpdate(s: State, w: nat, wk: Worker)
    requires w < |s.workers|
    ensures Sum(Marks(s.workers[w := wk], s.published)) + (if Reported(s.workers[w], s.published) then 1 else 0)
         == ReportedCount(s) + (if Reported(wk, s.published) then 1 else 0)
  {
    var m := Marks(s.workers, s.published);
    var v := if Reported(wk, s.published) then 1 else 0;
    assert Marks(s.workers[w := wk], s.published) == m[w := v];
    SumUpdate(m, w, v);
  }

  /** A worker step that touches only workers[w] keeps the invariant when it keeps the parts that mention w. */
  lemma WorkerStep(s: State, s': State, w: nat)
    requires Inv(s) && !s.main.Closed? && w < |s.workers| && |s'.workers| == |s.workers|
    requires s' == s.(workers := s.workers[w := s'.workers[w]])
    requires WorkerInv(s', w)
    requires Reported(s.workers[w], s.published) <==> Reported(s'.workers[w], s.published)
    requires s.workers[w].pc.Exited? ==> s'.workers[w].pc.Exited?
    ensures Inv(s')
  {
    MarksUpdate(s, w, s'.workers[w]);
    forall v | 0 <= v < |s'.workers|
      ensures WorkerInv(s', v)
    {
      if v != w { assert WorkerInv(s, v); }
    }
  }

  lemma CheckStep(s: State, w: nat)
    requires Inv(s) && Enabled(s, WorkerCheck(w))
    ensures Inv(Apply(s, WorkerCheck(w)))
  {
    hide Slice, Marks, Sum;
    assert WorkerInv(s, w);
    GenerationStep(s.workers[w].served);
    WorkerStep(s, Apply(s, WorkerCheck(w)), w);
  }

  lemma ReportStep(s: State, w: nat)
    requires Inv(s) && Enabled(s, WorkerReport(w))
    ensures Inv(Apply(s, WorkerReport(w)))
  {
    var s' := Apply(s, WorkerReport(w));
    assert WorkerInv(s, w);
    MarksUpdate(s, w, s'.workers[w]);
    SumBound(Marks(s'.workers, s'.published), 1);
    forall v | 0 <= v < |s'.workers|
      ensures WorkerInv(s', v)
    {
      assert WorkerInv(s, v);
    }
  }

  /** The 32-bit generation counter wraps, and still follows the number of increments. */
  lemma GenerationStep(count: nat)
    ensures (count % U32 + 1) % U32 == (count + 1) % U32 != count % U32
  {
  }

  lemma PublishedWorker(s: State, job: Job, v: nat)
    requires Inv(s) && Enabled(s, Publish(job)) && v < |s.workers|
    ensures WorkerInv(Apply(s, Publish(job)), v)
    ensures !Reported(Apply(s, Publish(job)).workers[v], s.published + 1)
  {
    assert WorkerInv(s, v) && Reported(s.workers[v], s.published);
    assert !s.shutdown;
    var wk := Apply(s, Publish(job)).workers[v];
    assert wk == Worker(Check, s.workers[v].seen, s.workers[v].depth, s.published, []);
  }

  lemma PublishStep(s: State, job: Job)
    requires Inv(s) && Enabled(s, Publish(job))
    ensures Inv(Apply(s, Publish(job)))
  {
    var s' := Apply(s, Publish(job));
    forall v | 0 <= v < |s'.workers|
      ensures WorkerInv(s', v)
      ensures !Reported(s'.workers[v], s'.published)
    {
      PublishedWorker(s, job, v);
    }
    GenerationStep(s.published);
    assert ReportedCount(s') == 0 by { SumBound(Marks(s'.workers, s'.published), 0); }
    assert MainInv(s');
  }

  lemma ReturnStep(s: State)
    requires Inv(s) && Enabled(s, MainCheck)
    ensures Inv(Apply(s, MainCheck))
  {
    var s' := Apply(s, MainCheck);
    var marks := Marks(s.workers, s.published);
    SumBound(marks, 1);
    forall v | 0 <= v < |s'.workers|
      ensures WorkerInv(s', v)
      ensures s.done >= s.nWorkers ==> Reported(s.workers[v], s.published)
    {
      assert WorkerInv(s, v);
      assert marks[v] == if Reported(s.workers[v], s.published) then 1 else 0;
    }
  }

  lemma ShutDownWorker(s: State, v: nat)
    requires Inv(s) && Enabled(s, Shutdown) && v < |s.workers|
    ensures WorkerInv(Apply(s, Shutdown), v)
    ensures Reported(Apply(s, Shutdown).workers[v], s.published)
  {
    assert WorkerInv(s, v) && Reported(s.workers[v], s.published);
    assert !s.shutdown;
    assert Apply(s, Shutdown).workers[v] == s.workers[v].(pc := Check);
  }

  lemma ShutdownStep(s: State)
    requires Inv(s) && Enabled(s, Shutdown)
    ensures Inv(Apply(s, Shutdown))
  {
    var s' := Apply(s, Shutdown);
    forall v | 0 <= v < |s'.workers|
      ensures WorkerInv(s', v)
      ensures Reported(s'.workers[v], s'.published)
    {
      ShutDownWorker(s, v);
    }
    GenerationStep(s.published);
    assert MainInv(s');
  }

  lemma NoRows(n: nat, tid: nat)
    requires 0 < n <= MAX_THREADS
    ensures Slice(NO_JOB, n, tid) == []
  {
    hide Row0, RowsPerThread;
  }

  lemma InitStep(s: State, n: nat)
    requires Inv(s) && Enabled(s, Init(n))
    ensures Inv(Apply(s, Init(n)))
  {
    var s' := Apply(s, Init(n));
    forall tid: nat | tid < n ensures Slice(NO_JOB, n, tid) == [] { NoRows(n, tid); }
    hide Slice;
  }

  /** Steps of the caller inside a call, and joining, leave every worker as it is. */
  lemma CallerStep(s: State, step: Step)
    requires Inv(s) && Enabled(s, step)
    requires step.MainEnter? || step.MainLeave? || step.MainSpurious? || step.Join?
    ensures Inv(Apply(s, step))
  {
    var s' := Apply(s, step);
    forall v | 0 <= v < |s'.workers| ensures WorkerInv(s', v) { assert WorkerInv(s, v); }
  }

  lemma RunningStep(s: State, step: Step, w: nat)
    requires Inv(s) && Enabled(s, step)
    requires step == WorkerSpurious(w) || step == WorkerEnter(w) || step == WorkerLeave(w)
    ensures Inv(Apply(s, step))
  {
    assert WorkerInv(s, w);
    WorkerStep(s, Apply(s, step), w);
  }

  /** Every step of every thread keeps the invariant. */
  lemma StepKeepsInv(s: State, step: Step)
    requires Inv(s) && Enabled(s, step)
    ensures Inv(Apply(s, step))
  {
    match step
    case Init(n) => InitStep(s, n);
    case Publish(job) => PublishStep(s, job);
    case MainCheck => ReturnStep(s);
    case Shutdown => ShutdownStep(s);
    case Destroy =>
    case WorkerCheck(w) => CheckStep(s, w);
    case WorkerReport(w) => ReportStep(s, w);
    case WorkerSpurious(w) => RunningStep(s, step, w);
    case WorkerEnter(w) => RunningStep(s, step, w);
    case WorkerLeave(w) => RunningStep(s, step, w);
    case _ => CallerStep(s, step);
  }

  // ---- runs --------------------------------------------------------------------

  /** states is an execution of the whole program: from no pool at all, one enabled step at a time. */
  ghost predicate IsRun(states: seq<State>, steps: seq<Step>) {
    && |states| == |steps| + 1
    && states[0] == NO_POOL
    && forall i :: 0 <= i < |steps| ==> Enabled(states[i], steps[i]) && states[i + 1] == Apply(states[i], steps[i])
  }

  lemma {:induction false} RunKeepsInv(states: seq<State>, steps: seq<Step>, i: nat)
    requires IsRun(states, steps) && i < |states|
    ensures Inv(states[i])
  {
    if i == 0 {
    } else {
      RunKeepsInv(states, steps, i - 1);
      StepKeepsInv(states[i - 1], steps[i - 1]);
    }
  }

  // ---- what a call has done when it returns ----------------------------------------

  /** How many calls of fn made so far for the current job were handed row r, over the first upTo threads. */
  ghost function RowHits(s: State, upTo: nat, r: nat): nat
    requires upTo <= |s.workers| + 1
  {
    if upTo == 0 then 0
    else RowHits(s, upTo - 1, r) + Hits(if upTo == 1 then s.mainLog else s.workers[upTo - 2].log, r)
  }

  /** The calls of fn made by thread tid for the current job. */
  ghost function LogOf(s: State, tid: nat): seq<Invocation>
    requires tid <= |s.workers|
  {
    if tid == 0 then s.mainLog else s.workers[tid - 1].log
  }

  lemma {:induction false} RowHitsAreSliceHits(s: State, upTo: nat, r: nat)
    requires upTo <= |s.workers| + 1 && s.nThreads > 0
    ensures (forall tid: nat | tid < upTo :: LogOf(s, tid) == Slice(s.job, s.nThreads, tid))
            ==> RowHits(s, upTo, r) == SliceHits(s.job, s.nThreads, upTo, r)
    ensures (forall tid: nat | tid < upTo :: LogOf(s, tid) == [] || LogOf(s, tid) == Slice(s.job, s.nThreads, tid))
            ==> RowHits(s, upTo, r) <= SliceHits(s.job, s.nThreads, upTo, r)
  {
    if upTo > 0 {
      RowHitsAreSliceHits(s, upTo - 1, r);
      assert LogOf(s, upTo - 1) == if upTo == 1 then s.mainLog else s.workers[upTo - 2].log;
    }
  }

  /** A call is about to return: its caller finds the done counter complete. */
  ghost predicate Returning(s: State) {
    s.main.CheckDone? && s.done >= s.nWorkers
  }

  lemma ReturningWorker(s: State, w: nat)
    requires Inv(s) && Returning(s) && w < |s.workers|
    ensures s.workers[w].depth == 0 && s.workers[w].served == s.published
    ensures LogOf(s, w + 1) == Slice(s.job, s.nThreads, w + 1)
  {
    var marks := Marks(s.workers, s.published);
    SumBound(marks, 1);
    assert WorkerInv(s, w);
    assert marks[w] == if Reported(s.workers[w], s.published) then 1 else 0;
  }

  /** Every row below n_rows has been handed to fn exactly once for the current job, and no other row at all. */
  ghost predicate RowsHandedOnce(s: State)
    requires s.nThreads <= |s.workers| + 1
  {
    forall r: nat :: RowHits(s, s.nThreads, r) == if r < s.job.nRows then 1 else 0
  }

  /** Every call of fn made for the current job carries that job's fn and ctx. */
  ghost predicate OnlyThisJob(s: State) {
    forall tid: nat, k: nat | tid <= |s.workers| && k < |LogOf(s, tid)| ::
      LogOf(s, tid)[k].fn == s.job.fn && LogOf(s, tid)[k].ctx == s.job.ctx
  }

  /** No thread is inside fn, and every worker has taken exactly the jobs published so far. */
  ghost predicate NothingRunning(s: State) {
    && s.mainDepth == 0
    && forall w :: 0 <= w < |s.workers| ==> s.workers[w].depth == 0 && s.workers[w].served == s.published
  }

  lemma ReturnedLogs(s: State, tid: nat)
    requires Inv(s) && Returning(s) && tid <= |s.workers|
    ensures LogOf(s, tid) == Slice(s.job, s.nThreads, tid)
  {
    if tid > 0 { ReturningWorker(s, tid - 1); }
  }

  lemma ReturnedRow(s: State, r: nat)
    requires Inv(s) && Returning(s)
    ensures RowHits(s, s.nThreads, r) == SliceHits(s.job, s.nThreads, s.nThreads, r)
  {
    forall tid: nat | tid < s.nThreads
      ensures LogOf(s, tid) == Slice(s.job, s.nThreads, tid)
    {
      ReturnedLogs(s, tid);
    }
    RowHitsAreSliceHits(s, s.nThreads, r);
  }

  lemma ReturnedRows(s: State)
    requires Inv(s) && Returning(s)
    ensures RowsHandedOnce(s) <==> s.job.nRows + s.nThreads - 1 < U64
  {
    SlicesPartition(s.job, s.nThreads);
    if s.job.nRows + s.nThreads - 1 < U64 {
      forall r: nat
        ensures RowHits(s, s.nThreads, r) == if r < s.job.nRows then 1 else 0
      {
        ReturnedRow(s, r);
      }
    } else {
      ReturnedRow(s, 0);
      WrappedHits(s.job, s.nThreads, s.nThreads, 0);
    }
  }

  /**
   When a call returns nothing is still running, every invocation carried this job's fn and
   ctx, and each row was handed out exactly once -- the last exactly when
   n_rows + n_threads - 1 fits in 64 bits.
   */
  lemma ReturnedCallIsComplete(s: State)
    requires Inv(s) && Returning(s)
    ensures Apply(s, MainCheck).main.Idle?
    ensures NothingRunning(s) && OnlyThisJob(s)
    ensures RowsHandedOnce(s) <==> s.job.nRows + s.nThreads - 1 < U64
  {
    forall w | 0 <= w < |s.workers|
      ensures s.workers[w].depth == 0 && s.workers[w].served == s.published
    {
      ReturningWorker(s, w);
    }
    forall tid: nat, k: nat | tid <= |s.workers| && k < |LogOf(s, tid)|
      ensures LogOf(s, tid)[k].fn == s.job.fn && LogOf(s, tid)[k].ctx == s.job.ctx
    {
      ReturnedLogs(s, tid);
    }
    ReturnedRows(s);
  }

  /** At no moment of any call has a row been handed out twice, or a row beyond the job at all. */
  lemma RowsNeverRepeated(s: State, r: nat)
    requires Inv(s) && !s.main.Closed?
    ensures RowHits(s, s.nThreads, r) <= if r < s.job.nRows then 1 else 0
  {
    forall tid: nat | tid <= |s.workers|
      ensures LogOf(s, tid) == [] || LogOf(s, tid) == Slice(s.job, s.nThreads, tid)
    {
      if tid > 0 { assert WorkerInv(s, tid - 1); }
    }
    RowHitsAreSliceHits(s, s.nThreads, r);
    if s.job.nRows + s.nThreads - 1 < U64 {
      SlicesPartition(s.job, s.nThreads);
    } else {
      WrappedHits(s.job, s.nThreads, s.nThreads, r);
    }
  }

  /** A call made from inside fn runs inline, on the thread that makes it, whatever its size. */
  lemma NestedCallIsInline(s: State, w: nat, nRows: nat, minRows: nat)
    requires Inv(s) && !s.main.Closed? && w < |s.workers|
    ensures s.workers[w].pc.InFn? ==> RunsInline(s.workers[w].depth, s.nThreads, nRows, minRows)
    ensures s.main.MainInFn? ==> RunsInline(s.mainDepth, s.nThreads, nRows, minRows)
    ensures !s.workers[w].pc.InFn? ==>
              (RunsInline(s.workers[w].depth, s.nThreads, nRows, minRows) <==> s.nThreads <= 1 || nRows < minRows)
  {
    assert WorkerInv(s, w);
  }

  /** While a call is in progress the pool holds that call's job and history counts it as the latest. */
  lemma {:induction false} CallKeepsJob(states: seq<State>, steps: seq<Step>, j: nat, i: nat, job: Job)
    requires IsRun(states, steps) && j < i < |states| && steps[j] == Publish(job)
    requires forall k :: j < k <= i ==> InCall(states[k])
    ensures states[i].job == job && states[i].published == states[j].published + 1
  {
    hide Apply, Enabled, InCall;
    if i > j + 1 {
      CallKeepsJob(states, steps, j, i - 1, job);
      assert Enabled(states[i - 1], steps[i - 1]) && states[i - 1 + 1] == Apply(states[i - 1], steps[i - 1]);
      CallStepKeepsJob(states[i - 1], steps[i - 1]);
    } else {
      assert Enabled(states[j], steps[j]) && states[j + 1] == Apply(states[j], steps[j]);
      PublishSetsJob(states[j], job);
    }
  }

  lemma CallStepKeepsJob(s: State, step: Step)
    requires Enabled(s, step) && InCall(s) && InCall(Apply(s, step))
    ensures Apply(s, step).job == s.job && Apply(s, step).published == s.published
  {
    hide Slice, Broadcast, ClearLogs, WakeWorker;
  }

  lemma PublishSetsJob(s: State, job: Job)
    requires Enabled(s, Publish(job))
    ensures Apply(s, Publish(job)).job == job && Apply(s, Publish(job)).published == s.published + 1
  {
    hide Broadcast, ClearLogs;
  }

  /**
   Whole runs: the call begun by step j that returns at state i has handed each row of its own
   job to its own fn exactly once (if and only if the row sum does not wrap), with nothing left running.
   */
  lemma CallHandsEachRowOnce(states: seq<State>, steps: seq<Step>, j: nat, i: nat, job: Job)
    requires IsRun(states, steps) && j < i < |states| && steps[j] == Publish(job)
    requires forall k :: j < k <= i ==> InCall(states[k])
    requires Returning(states[i])
    ensures states[i].job == job && states[i].nThreads == |states[i].workers| + 1
    ensures NothingRunning(states[i]) && OnlyThisJob(states[i])
    ensures RowsHandedOnce(states[i]) <==> job.nRows + states[i].nThreads - 1 < U64
  {
    RunKeepsInv(states, steps, i);
    CallKeepsJob(states, steps, j, i, job);
    ReturnedCallIsComplete(states[i]);
  }

  /** No worker ever skips or repeats a generation: it has taken all jobs published, or all but the latest. */
  lemma GenerationsInStep(states: seq<State>, steps: seq<Step>, i: nat, w: nat)
    requires IsRun(states, steps) && i < |states| && w < |states[i].workers|
    ensures states[i].published - 1 <= states[i].workers[w].served <= states[i].published
    ensures states[i].workers[w].pc.Snapped? || states[i].workers[w].pc.InFn? ==>
              states[i].workers[w].pc.job == states[i].job
    ensures i + 1 < |states| && !steps[i].Destroy? ==>
              && w < |states[i + 1].workers|
              && (states[i + 1].workers[w].served == states[i].workers[w].served + 1 <==>
                    steps[i] == WorkerCheck(w) && states[i + 1].workers[w].pc.Snapped?)
  {
    RunKeepsInv(states, steps, i);
    assert WorkerInv(states[i], w);
    if i + 1 < |states| {
      assert Enabled(states[i], steps[i]);
    }
  }

  // ---- every call returns ------------------------------------------------------------

  /** Steps that some thread of the pool takes by itself while a call or a shutdown is in progress. */
  ghost predicate IsWork(step: Step) {
    !step.Init? && !step.Publish? && !step.Shutdown? && !IsSpurious(step)
  }

  ghost predicate IsSpurious(step: Step) {
    step.MainSpurious? || step.WorkerSpurious?
  }

  /** The caller is inside ds4_parallel_for_min_rows or ds4_threads_shutdown. */
  ghost predicate Busy(s: State) {
    InCall(s) || s.main.Joining?
  }

  ghost function WorkerRank(wk: Worker, published: nat): nat {
    match wk.pc
    case Check => if wk.served == published then 1 else 5
    case WaitWork => 0
    case Snapped(_) => 4
    case InFn(_) => 3
    case Reporting => 2
    case Exited => 0
  }

  ghost function MainRank(s: State): nat {
    match s.main
    case Dispatched(_) => 4
    case MainInFn(_) => 3
    case CheckDone => if s.done < s.nWorkers then 2 else 1
    case WaitDone => 1
    case Joining(next) => if next <= |s.workers| then |s.workers| - next + 1 else 0
    case _ => 0
  }

  ghost function WorkerRanks(ws: seq<Worker>, published: nat): seq<nat> {
    seq(|ws|, i requires 0 <= i < |ws| => WorkerRank(ws[i], published))
  }

  /** An upper bound on the steps that remain until the caller is back. */
  ghost function Rank(s: State): nat {
    MainRank(s) + Sum(WorkerRanks(s.workers, s.published))
  }

  lemma RankUpdate(s: State, w: nat, wk: Worker)
    requires w < |s.workers|
    ensures Sum(WorkerRanks(s.workers[w := wk], s.published)) + WorkerRank(s.workers[w], s.published)
         == Sum(WorkerRanks(s.workers, s.published)) + WorkerRank(wk, s.published)
  {
    var ranks := WorkerRanks(s.workers, s.published);
    assert WorkerRanks(s.workers[w := wk], s.published) == ranks[w := WorkerRank(wk, s.published)];
    SumUpdate(ranks, w, WorkerRank(wk, s.published));
  }

  lemma BusySteps(s: State, step: Step)
    requires Busy(s) && Enabled(s, step)
    ensures !step.Init? && !step.Publish? && !step.Shutdown?
  {
  }

  lemma DestroyEndsRank(s: State)
    requires Enabled(s, Destroy)
    ensures Rank(Apply(s, Destroy)) == 0 < Rank(s)
  {
    assert Apply(s, Destroy) == NO_POOL && MainRank(s) == 1;
    hide Apply, Enabled;
    NoRank(NO_POOL);
  }

  lemma NoRank(s: State)
    requires s == NO_POOL
    ensures Rank(s) == 0
  {
    assert WorkerRanks(s.workers, s.published) == [];
  }

  /** A caller's step that leaves the workers alone lowers the caller's own rank, or wakes it for nothing. */
  lemma CallerOnlyStep(s: State, step: Step)
    requires Busy(s) && Enabled(s, step)
    requires step.MainEnter? || step.MainLeave? || step.MainCheck? || step.MainSpurious? || step.Join?
    ensures Apply(s, step).workers == s.workers && Apply(s, step).published == s.published
    ensures step.MainSpurious? || MainRank(Apply(s, step)) < MainRank(s)
    ensures MainRank(Apply(s, step)) <= MainRank(s) + 1
  {
    hide Slice, WakeWorker, Broadcast, ClearLogs;
  }

  lemma CallerLowersRank(s: State, step: Step)
    requires Busy(s) && Enabled(s, step)
    requires step.MainEnter? || step.MainLeave? || step.MainCheck? || step.MainSpurious? || step.Join? || step.Destroy?
    ensures IsWork(step) ==> Rank(Apply(s, step)) < Rank(s)
    ensures IsSpurious(step) ==> Rank(Apply(s, step)) <= Rank(s) + 1
  {
    hide Apply, Enabled, MainRank, Sum, WorkerRanks, Busy;
    if step == Destroy {
      DestroyEndsRank(s);
    } else {
      CallerOnlyStep(s, step);
    }
  }

  lemma WorkerLowersRank(s: State, step: Step, w: nat)
    requires Inv(s) && Busy(s) && Enabled(s, step)
    requires step == WorkerCheck(w) || step == WorkerSpurious(w) || step == WorkerEnter(w) || step == WorkerLeave(w)
      || step == WorkerReport(w)
    ensures IsWork(step) ==> Rank(Apply(s, step)) < Rank(s)
    ensures IsSpurious(step) ==> Rank(Apply(s, step)) <= Rank(s) + 1
  {
    hide Slice, Sum, WorkerRanks, Marks;
    assert WorkerInv(s, w);
    GenerationStep(s.workers[w].served);
    RankUpdate(s, w, Apply(s, step).workers[w]);
  }

  /** Every step of a busy pool that is not a spurious wakeup lowers the rank; a spurious wakeup raises it by one. */
  lemma WorkLowersRank(s: State, step: Step)
    requires Inv(s) && Busy(s) && Enabled(s, step)
    ensures IsWork(step) ==> Rank(Apply(s, step)) < Rank(s)
    ensures IsSpurious(step) ==> Rank(Apply(s, step)) <= Rank(s) + 1
    ensures IsWork(step) || IsSpurious(step)
  {
    hide Inv, Apply, Rank, Enabled, Busy;
    assert !step.Init? && !step.Publish? && !step.Shutdown? by { BusySteps(s, step); }
    match step
    case WorkerCheck(w) => WorkerLowersRank(s, step, w);
    case WorkerSpurious(w) => WorkerLowersRank(s, step, w);
    case WorkerEnter(w) => WorkerLowersRank(s, step, w);
    case WorkerLeave(w) => WorkerLowersRank(s, step, w);
    case WorkerReport(w) => WorkerLowersRank(s, step, w);
    case _ => CallerLowersRank(s, step);
  }

  /** Some worker has not reported when the done counter is short. */
  lemma {:induction false} UnreportedWorker(s: State) returns (w: nat)
    requires Inv(s) && InCall(s) && s.done < s.nWorkers
    ensures w < |s.workers| && !Reported(s.workers[w], s.published)
  {
    var marks := Marks(s.workers, s.published);
    SumBound(marks, 1);
    w :| w < |marks| && marks[w] != 1;
  }

  /** No wakeup is lost: in a busy pool some step other than a spurious wakeup is always enabled. */
  lemma NeverStuck(s: State) returns (step: Step)
    requires Inv(s) && Busy(s)
    ensures Enabled(s, step) && IsWork(step)
  {
    match s.main
    case Dispatched(_) => step := MainEnter;
    case MainInFn(_) => step := MainLeave;
    case CheckDone => step := MainCheck;
    case WaitDone =>
      var w := UnreportedWorker(s);
      step := NextOf(s, w);
    case Joining(next) =>
      if next == |s.workers| {
        step := Destroy;
      } else if s.workers[next].pc.Exited? {
        step := Join;
      } else {
        step := NextOf(s, next);
      }
  }

  /** A worker that has work left, or that must exit, is never left sleeping. */
  lemma NextOf(s: State, w: nat) returns (step: Step)
    requires Inv(s) && Busy(s) && w < |s.workers|
    requires !Reported(s.workers[w], s.published) || (s.shutdown && !s.workers[w].pc.Exited?)
    ensures Enabled(s, step) && IsWork(step)
  {
    assert WorkerInv(s, w);
    match s.workers[w].pc
    case Check => step := WorkerCheck(w);
    case Snapped(_) => step := WorkerEnter(w);
    case InFn(_) => step := WorkerLeave(w);
    case Reporting => step := WorkerReport(w);
  }

  ghost function SpuriousIn(steps: seq<Step>): nat {
    if steps == [] then 0 else SpuriousIn(steps[1..]) + if IsSpurious(steps[0]) then 1 else 0
  }

  /** An execution fragment during which the caller stays inside the call (or the shutdown). */
  ghost predicate BusyRun(states: seq<State>, steps: seq<Step>) {
    && |states| == |steps| + 1
    && (forall i :: 0 <= i < |steps| ==>
          Busy(states[i]) && Enabled(states[i], steps[i]) && states[i + 1] == Apply(states[i], steps[i]))
  }

  /**
   Every call (and every shutdown) returns under every schedule: while the caller is inside,
   at most Rank + 2 * (number of spurious wakeups) steps can be taken by all threads together.
   */
  lemma {:induction false} BusyRunIsBounded(states: seq<State>, steps: seq<Step>)
    requires BusyRun(states, steps) && Inv(states[0])
    ensures |steps| + Rank(states[|steps|]) <= Rank(states[0]) + 2 * SpuriousIn(steps)
    decreases |steps|
  {
    hide Inv, Apply, Enabled, Busy, Rank;
    if steps != [] {
      assert Busy(states[0]) && Enabled(states[0], steps[0]) && states[1] == Apply(states[0], steps[0]);
      WorkLowersRank(states[0], steps[0]);
      StepKeepsInv(states[0], steps[0]);
      forall i | 0 <= i < |steps[1..]|
        ensures Busy(states[1..][i]) && Enabled(states[1..][i], steps[1..][i])
             && states[1..][i + 1] == Apply(states[1..][i], steps[1..][i])
      {
        assert Busy(states[i + 1]) && Enabled(states[i + 1], steps[i + 1]);
      }
      BusyRunIsBounded(states[1..], steps[1..]);
    }
  }

  /** When the pool is destroyed every worker thread has exited, and none had work left. */
  lemma ShutdownExitsAll(s: State)
    requires Inv(s) && Enabled(s, Destroy)
    ensures forall w :: 0 <= w < |s.workers| ==>
              s.workers[w].pc.Exited? && s.workers[w].served == s.published && s.workers[w].depth == 0
  {
    forall w | 0 <= w < |s.workers|
      ensures s.workers[w].served == s.published && s.workers[w].depth == 0
    {
      assert WorkerInv(s, w);
    }
  }
}

/**
 The persistent CPU worker pool (src/util/ds4_util.c): a generation/done-counter
 barrier guarded by one mutex and two condition variables.

 Every block that the source runs while holding the mutex is one atomic step, and
 so is each entry to and exit from the row function, so that the steps of different
 threads may interleave in any order.  The wait sets of the two condition variables are
 explicit (program counters WaitWork and WaitDone), and a waiting thread may also
 wake spuriously.  Counters that only the proofs read (published, served, log) record history.
 */
module WorkerPool {

  const U32 := 0x1_0000_0000
  const U64 := 0x1_0000_0000_0000_0000
  const MAX_THREADS := 32

  /** A row-parallel job: function, context, and row count, as passed by the caller. */
  datatype Job = Job(fn: int, ctx: int, nRows: nat)

  /** One call fn(ctx, row0, row1). */
  datatype Invocation = Invocation(fn: int, ctx: int, row0: nat, row1: nat)

  // ---- splitting the rows ------------------------------------------------

  /** rows_per_thread, in the wrapping 64-bit arithmetic of the source. */
  function RowsPerThread(nRows: nat, nThreads: nat): nat
    requires nThreads > 0
  {
    ((nRows + nThreads - 1) % U64) / nThreads
  }

  function Row0(nRows: nat, nThreads: nat, tid: nat): nat
    requires nThreads > 0
  {
    (tid * RowsPerThread(nRows, nThreads)) % U64
  }

  function Row1(nRows: nat, nThreads: nat, tid: nat): nat
    requires nThreads > 0
  {
    var end := (Row0(nRows, nThreads, tid) + RowsPerThread(nRows, nThreads)) % U64;
    if end > nRows then nRows else end
  }

  /** What thread tid (0 is the caller) passes to fn: one call, or none when its slice is empty. */
  function Slice(job: Job, nThreads: nat, tid: nat): seq<Invocation>
    requires nThreads > 0
  {
    var row0 := Row0(job.nRows, nThreads, tid);
    var row1 := Row1(job.nRows, nThreads, tid);
    if row0 < row1 then [Invocation(job.fn, job.ctx, row0, row1)] else []
  }

  /** How many of the calls in log were handed row r. */
  ghost function Hits(log: seq<Invocation>, r: nat): nat {
    if log == [] then 0
    else (if log[0].row0 <= r < log[0].row1 then 1 else 0) + Hits(log[1..], r)
  }

  /** How many of the slices of threads 0..upTo contain row r. */
  ghost function SliceHits(job: Job, nThreads: nat, upTo: nat, r: nat): nat
    requires nThreads > 0
  {
    if upTo == 0 then 0
    else SliceHits(job, nThreads, upTo - 1, r) + Hits(Slice(job, nThreads, upTo - 1), r)
  }

  lemma SliceHit(job: Job, nThreads: nat, tid: nat, r: nat)
    requires nThreads > 0
    ensures Hits(Slice(job, nThreads, tid), r)
         == if Row0(job.nRows, nThreads, tid) <= r < Row1(job.nRows, nThreads, tid) then 1 else 0
  {
    var s := Slice(job, nThreads, tid);
    if s != [] {
      assert s[1..] == [];
    }
  }

  lemma MulMono(a: nat, b: nat, c: nat)
    requires a <= b
    ensures a * c <= b * c
  {
  }

  /** Without wrap-around, rows_per_thread is the rounded-up quotient. */
  lemma QuotientBounds(nRows: nat, nThreads: nat)
    requires nThreads > 0
    requires nRows + nThreads - 1 < U64
    ensures var q := RowsPerThread(nRows, nThreads);
            nRows <= nThreads * q <= nRows + nThreads - 1
  {
    var sum := nRows + nThreads - 1;
    assert sum == nThreads * (sum / nThreads) + sum % nThreads;
  }

  /** Without wrap-around, row r is in slice tid exactly when r < nRows and tid == r / rows_per_thread. */
  lemma SliceOfRow(nRows: nat, nThreads: nat, tid: nat, r: nat)
    requires tid < nThreads
    requires nRows + nThreads - 1 < U64
    ensures var q := RowsPerThread(nRows, nThreads);
            Row0(nRows, nThreads, tid) <= r < Row1(nRows, nThreads, tid)
            <==> r < nRows && tid * q <= r < tid * q + q
  {
    var q := RowsPerThread(nRows, nThreads);
    QuotientBounds(nRows, nThreads);
    MulMono(tid + 1, nThreads, q);
    assert (tid + 1) * q == tid * q + q;
    if tid * q + q < U64 {
      assert Row0(nRows, nThreads, tid) == tid * q;
    }
  }

  /** Without wrap-around, the slices of the first upTo threads contain exactly the rows below upTo * q. */
  lemma {:induction false} PrefixHits(job: Job, nThreads: nat, upTo: nat, r: nat)
    requires upTo <= nThreads && nThreads > 0
    requires job.nRows + nThreads - 1 < U64
    ensures SliceHits(job, nThreads, upTo, r)
         == if r < job.nRows && r < upTo * RowsPerThread(job.nRows, nThreads) then 1 else 0
  {
    hide RowsPerThread, Row0, Row1, Slice, Hits;
    if upTo > 0 {
      var q := RowsPerThread(job.nRows, nThreads);
      PrefixHits(job, nThreads, upTo - 1, r);
      SliceHit(job, nThreads, upTo - 1, r);
      SliceOfRow(job.nRows, nThreads, upTo - 1, r);
      assert (upTo - 1) * q + q == upTo * q;
    }
  }

  /** With wrap-around every slice is empty. */
  lemma {:induction false} WrappedHits(job: Job, nThreads: nat, upTo: nat, r: nat)
    requires 0 < nThreads <= MAX_THREADS && job.nRows < U64
    requires job.nRows + nThreads - 1 >= U64
    ensures SliceHits(job, nThreads, upTo, r) == 0
  {
    hide RowsPerThread, Row0, Row1, Slice, Hits;
    if upTo > 0 {
      WrappedSlice(job.nRows, nThreads, upTo - 1);
      WrappedHits(job, nThreads, upTo - 1, r);
      SliceHit(job, nThreads, upTo - 1, r);
    }
  }

  lemma WrappedSlice(nRows: nat, nThreads: nat, tid: nat)
    requires 0 < nThreads <= MAX_THREADS && nRows < U64 && nRows + nThreads - 1 >= U64
    ensures Row1(nRows, nThreads, tid) == 0
  {
    var rest := nRows + nThreads - 1 - U64;
    assert (nRows + nThreads - 1) % U64 == rest;
    assert rest < nThreads;
    assert RowsPerThread(nRows, nThreads) == 0;
    hide RowsPerThread;
    assert Row0(nRows, nThreads, tid) == 0;
  }

  /** The slices partition [0, nRows) exactly when the row-count sum does not wrap. */
  lemma SlicesPartition(job: Job, nThreads: nat)
    requires 0 < nThreads <= MAX_THREADS && job.nRows < U64
    ensures (forall r: nat :: SliceHits(job, nThreads, nThreads, r) == if r < job.nRows then 1 else 0)
            <==> job.nRows + nThreads - 1 < U64
  {
    if job.nRows + nThreads - 1 < U64 {
      QuotientBounds(job.nRows, nThreads);
      forall r: nat
        ensures SliceHits(job, nThreads, nThreads, r) == if r < job.nRows then 1 else 0
      {
        PrefixHits(job, nThreads, nThreads, r);
      }
    } else {
      WrappedHits(job, nThreads, nThreads, 0);
    }
  }

  // ---- the transition system ----------------------------------------------

  datatype WorkerPc =
    | Check                 // about to lock the mutex and test the loop condition
    | WaitWork              // blocked on work_cond
    | Snapped(job: Job)     // unlocked, holding its copy of the job
    | InFn(job: Job)        // inside fn
    | Reporting             // about to lock the mutex and count itself done
    | Exited

  datatype MainPc =
    | Idle                  // between calls
    | Dispatched(job: Job)  // unlocked after publishing
    | MainInFn(job: Job)
    | CheckDone             // about to lock the mutex and test done < n_workers
    | WaitDone              // blocked on done_cond
    | Joining(next: nat)    // shutting down, next worker to join
    | Closed                // no pool

  datatype Worker = Worker(
    pc: WorkerPc,
    seen: nat,              // seen_generation
    depth: int,             // this thread's g_parallel_depth
    served: nat,            // history: jobs taken in this pool's lifetime
    log: seq<Invocation>)   // history: calls of fn for the current job

  datatype State = State(
    nThreads: nat, nWorkers: nat,
    generation: nat, done: nat,
    initialized: bool, shutdown: bool,
    job: Job,               // the fields fn, ctx and n_rows
    workers: seq<Worker>,   // worker tid is workers[tid - 1]
    main: MainPc, mainDepth: int,
    published: nat,         // history: jobs published in this pool's lifetime
    mainLog: seq<Invocation>)

  datatype Step =
    | Init(n: nat)
    | Publish(job: Job)
    | MainEnter
    | MainLeave
    | MainCheck
    | MainSpurious
    | WorkerCheck(w: nat)
    | WorkerSpurious(w: nat)
    | WorkerEnter(w: nat)
    | WorkerLeave(w: nat)
    | WorkerReport(w: nat)
    | Shutdown
    | Join
    | Destroy

  predicate Enabled(s: State, step: Step) {
    match step
    case Init(n) => s.main.Closed? && 1 <= n <= MAX_THREADS
    case Publish(job) => s.main.Idle? && s.nThreads > 1 && job.nRows < U64
    case MainEnter => s.main.Dispatched? && s.nThreads > 0
    case MainLeave => s.main.MainInFn?
    case MainCheck => s.main.CheckDone?
    case MainSpurious => s.main.WaitDone?
    case WorkerCheck(w) => w < |s.workers| && s.workers[w].pc.Check?
    case WorkerSpurious(w) => w < |s.workers| && s.workers[w].pc.WaitWork?
    case WorkerEnter(w) => w < |s.workers| && s.workers[w].pc.Snapped? && s.nThreads > 0
    case WorkerLeave(w) => w < |s.workers| && s.workers[w].pc.InFn?
    case WorkerReport(w) => w < |s.workers| && s.workers[w].pc.Reporting?
    case Shutdown => s.main.Idle?
    case Join => s.main.Joining? && s.main.next < |s.workers| && s.workers[s.main.next].pc.Exited?
    case Destroy => s.main.Joining? && s.main.next == |s.workers|
  }

  const NO_JOB := Job(0, 0, 0)
  const NO_POOL := State(0, 0, 0, 0, false, false, NO_JOB, [], Closed, 0, 0, [])

  function FreshWorker(): Worker { Worker(Check, 0, 0, 0, []) }

  /** pthread_cond_broadcast(&work_cond) */
  function Broadcast(ws: seq<Worker>): seq<Worker> {
    seq(|ws|, i requires 0 <= i < |ws| => if ws[i].pc.WaitWork? then ws[i].(pc := Check) else ws[i])
  }

  /** History: a new job starts with empty logs. */
  function ClearLogs(ws: seq<Worker>): seq<Worker> {
    seq(|ws|, i requires 0 <= i < |ws| => ws[i].(log := []))
  }

  /** The worker-loop head: sleep, exit, or take a copy of the job. */
  function WakeWorker(s: State, wk: Worker): Worker {
    if wk.seen == s.generation && !s.shutdown then wk.(pc := WaitWork)
    else if s.shutdown then wk.(pc := Exited)
    else wk.(pc := Snapped(s.job), seen := s.generation, served := wk.served + 1)
  }

  function Apply(s: State, step: Step): State
    requires Enabled(s, step)
  {
    match step
    case Init(n) =>
      State(n, n - 1, 0, 0, true, false, NO_JOB, seq(n - 1, _ => FreshWorker()), Idle, 0, 0, [])
    case Publish(job) =>
      s.(job := job, done := 0, generation := (s.generation + 1) % U32,
         workers := ClearLogs(Broadcast(s.workers)),
         main := Dispatched(job), published := s.published + 1, mainLog := [])
    case MainEnter =>
      var calls := Slice(s.main.job, s.nThreads, 0);
      if calls == [] then s.(main := CheckDone)
      else s.(main := MainInFn(s.main.job), mainDepth := s.mainDepth + 1, mainLog := s.mainLog + calls)
    case MainLeave => s.(main := CheckDone, mainDepth := s.mainDepth - 1)
    case MainCheck => if s.done < s.nWorkers then s.(main := WaitDone) else s.(main := Idle)
    case MainSpurious => s.(main := CheckDone)
    case WorkerCheck(w) => s.(workers := s.workers[w := WakeWorker(s, s.workers[w])])
    case WorkerSpurious(w) => s.(workers := s.workers[w := s.workers[w].(pc := Check)])
    case WorkerEnter(w) =>
      var wk := s.workers[w];
      var calls := Slice(wk.pc.job, s.nThreads, w + 1);
      s.(workers := s.workers[w :=
        if calls == [] then wk.(pc := Reporting)
        else wk.(pc := InFn(wk.pc.job), depth := wk.depth + 1, log := wk.log + calls)])
    case WorkerLeave(w) =>
      var wk := s.workers[w];
      s.(workers := s.workers[w := wk.(pc := Reporting, depth := wk.depth - 1)])
    case WorkerReport(w) =>
      // the signal on done_cond moves a waiting caller back to its check
      var done := s.done + 1;
      s.(done := done, workers := s.workers[w := s.workers[w].(pc := Check)],
         main := if done == s.nWorkers && s.main.WaitDone? then CheckDone else s.main)
    case Shutdown =>
      s.(shutdown := true, generation := (s.generation + 1) % U32,
         workers := Broadcast(s.workers), main := Joining(0))
    case Join => s.(main := Joining(s.main.next + 1))
    case Destroy => NO_POOL
  }

  // ---- the pool object -------------------------------------------------------

  /** A call made on a thread whose depth is positive, or of few rows, runs inline. */
  predicate RunsInline(depth: int, nThreads: nat, nRows: nat, minRows: nat) {
    depth > 0 || nThreads <= 1 || nRows < minRows
  }

  /** At most 12 threads by the number of processors, unless the environment or the caller asks for a number. */
  function ThreadCount(cpus: int, env: int, requested: nat): (n: nat)
    ensures 1 <= n <= MAX_THREADS
    ensures requested == 0 && env <= 0 ==> n <= 12
    ensures 0 < requested <= MAX_THREADS ==> n == requested
  {
    var asked: nat :=
      if requested > 0 then requested else if env > 0 then env % U32 else if 0 < cpus < 12 then cpus else 12;
    if asked == 0 then 1 else if asked > MAX_THREADS then MAX_THREADS else asked
  }

  /**
   The pool as the source keeps it: shared fields updated in place, one method per lock-held
   block (and per entry to and exit from fn).  Thread-local variables are kept in workers and main.
   Each method refines the step of the transition system that its contract names.
   */
  class ThreadPool {
    var nThreads: nat
    var nWorkers: nat
    var generation: nat
    var done: nat
    var initialized: bool
    var shutdown: bool
    var job: Job
    var workers: seq<Worker>
    var main: MainPc
    var mainDepth: int
    var published: nat
    var mainLog: seq<Invocation>

    ghost function Abs(): State
      reads this
    {
      State(nThreads, nWorkers, generation, done, initialized, shutdown, job, workers,
            main, mainDepth, published, mainLog)
    }

    constructor ()
      ensures Abs() == NO_POOL
    {
      nThreads, nWorkers, generation, done := 0, 0, 0, 0;
      initialized, shutdown, job, workers := false, false, NO_JOB, [];
      main, mainDepth, published, mainLog := Closed, 0, 0, [];
    }

    /**
     ds4_threads_init: nothing when the pool exists, otherwise the step Init with the chosen number of threads. env is
     the number in DS4_THREADS, or 0 without one.
     */
    method InitThreads(cpus: int, env: int, requested: nat)
      requires requested < U32 && (!initialized ==> main.Closed?)
      modifies this
      ensures old(initialized) ==> Abs() == old(Abs())
      ensures !old(initialized) ==>
        && old(Enabled(Abs(), Init(ThreadCount(cpus, env, requested))))
        && Abs() == Apply(old(Abs()), Init(ThreadCount(cpus, env, requested)))
    {
      if initialized { return; }
      var n := 12;
      if cpus > 0 { n := if cpus < 12 then cpus else 12; }
      if env > 0 { n := env % U32; }
      if requested > 0 { n := requested; }
      if n > MAX_THREADS { n := MAX_THREADS; }
      if n == 0 { n := 1; }
      InitPool(n);
    }

    /** The pool of n threads. */
    method InitPool(n: nat)
      requires Enabled(Abs(), Init(n))
      modifies this
      ensures Abs() == Apply(old(Abs()), Init(n))
    {
      nThreads := n;
      nWorkers := n - 1;
      generation, done, shutdown, initialized := 0, 0, false, true;
      job, main, mainDepth, published, mainLog := NO_JOB, Idle, 0, 0, [];
      workers := [];
      for i := 1 to n
        invariant workers == seq(i - 1, _ => FreshWorker())
        invariant Abs() == Apply(old(Abs()), Init(n)).(workers := workers)
      {
        workers := workers + [FreshWorker()];
      }
    }

    /** The head of ds4_parallel_for_min_rows: run inline, or publish the job under the lock. */
    method BeginCall(depth: int, newJob: Job, minRows: nat) returns (inline: bool)
      requires depth > 0 || main.Idle?
      requires newJob.nRows < U64
      modifies this
      ensures inline <==> RunsInline(depth, old(nThreads), newJob.nRows, minRows)
      ensures inline ==> Abs() == old(Abs())
      ensures !inline ==> old(Enabled(Abs(), Publish(newJob))) && Abs() == Apply(old(Abs()), Publish(newJob))
    {
      if depth > 0 || nThreads <= 1 || newJob.nRows < minRows {
        return true;
      }
      job := newJob;
      done := 0;
      generation := (generation + 1) % U32;
      workers := ClearLogs(Broadcast(workers));
      main, published, mainLog := Dispatched(newJob), published + 1, [];
      return false;
    }

    method EnterMain()
      requires Enabled(Abs(), MainEnter)
      modifies this
      ensures Abs() == Apply(old(Abs()), MainEnter)
    {
      hide RowsPerThread, Row0, Row1;
      var mainRow1 := RowsPerThread(main.job.nRows, nThreads);
      if mainRow1 > main.job.nRows { mainRow1 := main.job.nRows; }
      FirstRows(main.job.nRows, nThreads);
      if mainRow1 > 0 {
        mainDepth := mainDepth + 1;
        mainLog := mainLog + [Invocation(main.job.fn, main.job.ctx, 0, mainRow1)];
        main := MainInFn(main.job);
      } else {
        main := CheckDone;
      }
    }

    method LeaveMain()
      requires Enabled(Abs(), MainLeave)
      modifies this
      ensures Abs() == Apply(old(Abs()), MainLeave)
    {
      mainDepth := mainDepth - 1;
      main := CheckDone;
    }

    /** One turn of the caller's loop on done < n_workers. */
    method CheckMain()
      requires Enabled(Abs(), MainCheck)
      modifies this
      ensures Abs() == Apply(old(Abs()), MainCheck)
    {
      if done < nWorkers {
        main := WaitDone;
      } else {
        main := Idle;
      }
    }

    /** One turn of the worker's locked loop head. */
    method WakeUp(w: nat)
      requires Enabled(Abs(), WorkerCheck(w))
      modifies this
      ensures Abs() == Apply(old(Abs()), WorkerCheck(w))
    {
      var wk := workers[w];
      if wk.seen == generation && !shutdown {
        wk := wk.(pc := WaitWork);
      } else if shutdown {
        wk := wk.(pc := Exited);
      } else {
        wk := wk.(seen := generation, pc := Snapped(job), served := wk.served + 1);
      }
      workers := workers[w := wk];
    }

    method EnterWorker(w: nat)
      requires Enabled(Abs(), WorkerEnter(w))
      modifies this
      ensures Abs() == Apply(old(Abs()), WorkerEnter(w))
    {
      var wk := workers[w];
      var mine := wk.pc.job;
      var rowsPerThread := RowsPerThread(mine.nRows, nThreads);
      var row0 := ((w + 1) * rowsPerThread) % U64;
      var row1 := (row0 + rowsPerThread) % U64;
      if row1 > mine.nRows { row1 := mine.nRows; }
      if row0 < row1 {
        wk := wk.(depth := wk.depth + 1, pc := InFn(mine),
                  log := wk.log + [Invocation(mine.fn, mine.ctx, row0, row1)]);
      } else {
        wk := wk.(pc := Reporting);
      }
      workers := workers[w := wk];
    }

    method LeaveWorker(w: nat)
      requires Enabled(Abs(), WorkerLeave(w))
      modifies this
      ensures Abs() == Apply(old(Abs()), WorkerLeave(w))
    {
      workers := workers[w := workers[w].(depth := workers[w].depth - 1, pc := Reporting)];
    }

    /** The worker counts itself done, and signals the caller when it is the last. */
    method Report(w: nat)
      requires Enabled(Abs(), WorkerReport(w))
      modifies this
      ensures Abs() == Apply(old(Abs()), WorkerReport(w))
    {
      done := done + 1;
      if done == nWorkers && main.WaitDone? {
        main := CheckDone;
      }
      workers := workers[w := workers[w].(pc := Check)];
    }

    method BeginShutdown()
      requires Enabled(Abs(), Shutdown)
      modifies this
      ensures Abs() == Apply(old(Abs()), Shutdown)
    {
      shutdown := true;
      generation := (generation + 1) % U32;
      workers := Broadcast(workers);
      main := Joining(0);
    }
  }

  lemma FirstRows(nRows: nat, nThreads: nat)
    requires nThreads > 0
    ensures Row0(nRows, nThreads, 0) == 0
    ensures var q := RowsPerThread(nRows, nThreads); Row1(nRows, nThreads, 0) == if q > nRows then nRows else q
  {
    var sum := (nRows + nThreads - 1) % U64;
    SmallQuotient(sum, nThreads);
    assert RowsPerThread(nRows, nThreads) < U64;
    hide RowsPerThread;
    assert 0 * RowsPerThread(nRows, nThreads) == 0;
  }

  lemma SmallQuotient(n: nat, d: nat)
    requires n < U64 && d > 0
    ensures n / d < U64
  {
    assert n / d <= n;
  }
}

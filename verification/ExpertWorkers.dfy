/**
 Threads that fill the slabs of an expert tensor, gguf-tools/deepseek4-quantize.c:1454-1483, 1571-1634, 1809-1848.
 A shared counter under a lock hands out slots; a slab is copied byte by byte without the lock.
 What generate_one_expert produces for a slot is an input.
 */
module ExpertWorkers {
  import opened ByteEncoding

  /** The bytes wanted for each slot, all of the same length. */
  datatype Job = Job(slabs: seq<seq<byte>>, perExpert: nat) {
    predicate Valid() {
      forall x :: 0 <= x < |slabs| ==> |slabs[x]| == perExpert
    }
  }

  /** Where a thread is: before the first lock, in the copy of a slot, before the second lock, or past its loop. */
  datatype Place = Taking | Copying(xid: nat, k: nat) | Reporting | Exited

  /** The counters, the output and how often each of its bytes was written, and the threads. */
  datatype State = State(next: nat, done: nat, out: seq<seq<byte>>, writes: seq<seq<nat>>, threads: seq<Place>)

  datatype Step = Take(t: nat) | Copy(t: nat) | Copied(t: nat) | Report(t: nat)

  function Row(n: nat): (r: seq<nat>)
    ensures |r| == n && forall i :: 0 <= i < n ==> r[i] == 0
  {
    seq(n, _ => 0)
  }

  function Rows(n: nat, len: nat): (r: seq<seq<nat>>)
    ensures |r| == n && forall i :: 0 <= i < n ==> r[i] == Row(len)
  {
    seq(n, _ => Row(len))
  }

  function Start(m: nat): (r: seq<Place>)
    ensures |r| == m && forall i :: 0 <= i < m ==> r[i] == Taking
  {
    seq(m, _ => Taking)
  }

  /** Before the threads run; memory holds anything. */
  ghost predicate Init(job: Job, m: nat, s: State) {
    && s.next == 0 && s.done == 0 && s.threads == Start(m)
    && Shaped(job, s)
    && s.writes == Rows(|job.slabs|, job.perExpert)
  }

  ghost predicate Shaped(job: Job, s: State) {
    && |s.out| == |job.slabs| && |s.writes| == |job.slabs|
    && forall x :: 0 <= x < |job.slabs| ==> |s.out[x]| == job.perExpert && |s.writes[x]| == job.perExpert
  }

  predicate Enabled(job: Job, s: State, step: Step) {
    && step.t < |s.threads|
    && var place := s.threads[step.t];
       match step
       case Take(_) => place == Taking
       case Copy(_) => place.Copying? && place.k < job.perExpert
       case Copied(_) => place.Copying? && place.k == job.perExpert
       case Report(_) => place == Reporting
  }

  function Next(job: Job, s: State, step: Step): State
    requires job.Valid() && Shaped(job, s) && Enabled(job, s, step)
    requires s.threads[step.t].Copying? ==> s.threads[step.t].xid < |job.slabs|
  {
    var t := step.t;
    match step
    case Take(_) =>
      var place := if s.next >= |job.slabs| then Exited else Copying(s.next, 0);
      s.(next := s.next + 1, threads := s.threads[t := place])
    case Copy(_) =>
      var x, k := s.threads[t].xid, s.threads[t].k;
      s.(out := s.out[x := s.out[x][k := job.slabs[x][k]]],
         writes := s.writes[x := s.writes[x][k := s.writes[x][k] + 1]],
         threads := s.threads[t := Copying(x, k + 1)])
    case Copied(_) => s.(threads := s.threads[t := Reporting])
    case Report(_) => s.(done := s.done + 1, threads := s.threads[t := Taking])
  }

  // ---- counting threads -------------------------------------------------------------------------------

  function Exits(ts: seq<Place>): nat {
    if |ts| == 0 then 0 else Exits(ts[..|ts| - 1]) + if ts[|ts| - 1] == Exited then 1 else 0
  }

  /** Threads that have taken a slot and not yet counted it. */
  function Busy(ts: seq<Place>): nat {
    if |ts| == 0 then 0 else Busy(ts[..|ts| - 1]) + if ts[|ts| - 1].Copying? || ts[|ts| - 1] == Reporting then 1 else 0
  }

  function One(b: bool): nat { if b then 1 else 0 }

  lemma {:induction false} CountUpdate(ts: seq<Place>, t: nat, p: Place)
    requires t < |ts|
    ensures Exits(ts[t := p]) + One(ts[t] == Exited) == Exits(ts) + One(p == Exited)
    ensures Busy(ts[t := p]) + One(ts[t].Copying? || ts[t] == Reporting) == Busy(ts) + One(p.Copying? || p == Reporting)
  {
    var n := |ts| - 1;
    if t < n {
      CountUpdate(ts[..n], t, p);
      assert ts[t := p][..n] == ts[..n][t := p];
    } else {
      assert ts[t := p][..n] == ts[..n];
    }
  }

  lemma {:induction false} CountBounds(ts: seq<Place>)
    ensures Exits(ts) <= |ts|
    ensures (forall t :: 0 <= t < |ts| ==> ts[t] == Exited) ==> Busy(ts) == 0
    ensures (forall t :: 0 <= t < |ts| ==> ts[t] == Taking) ==> Busy(ts) == 0 && Exits(ts) == 0
  {
    if |ts| > 0 { CountBounds(ts[..|ts| - 1]); }
  }

  // ---- the invariant ------------------------------------------------------------------------------------

  ghost predicate Untouched(s: State, x: nat)
    requires x < |s.writes|
  {
    forall j :: 0 <= j < |s.writes[x]| ==> s.writes[x][j] == 0
  }

  /** The first k bytes of a slab were written, once, and are right; the others were not written. */
  ghost predicate WrittenTo(job: Job, s: State, x: nat, k: nat)
    requires Shaped(job, s) && job.Valid() && x < |job.slabs|
  {
    forall j :: 0 <= j < job.perExpert ==>
      s.writes[x][j] == (if j < k then 1 else 0) && (j < k ==> s.out[x][j] == job.slabs[x][j])
  }

  ghost predicate CopiedBy(s: State, x: nat, t: nat)
    requires t < |s.threads|
  {
    s.threads[t].Copying? && s.threads[t].xid == x
  }

  /** A slot is untouched until it is taken, in the hands of one thread while it is copied, and whole afterwards. */
  ghost predicate SlotInv(job: Job, s: State, x: nat)
    requires Shaped(job, s) && job.Valid() && x < |job.slabs|
  {
    && (s.next <= x ==> Untouched(s, x))
    && (forall t :: 0 <= t < |s.threads| && CopiedBy(s, x, t) ==> WrittenTo(job, s, x, s.threads[t].k))
    && (x < s.next && (forall t :: 0 <= t < |s.threads| ==> !CopiedBy(s, x, t)) ==> WrittenTo(job, s, x, job.perExpert))
  }

  ghost predicate ThreadInv(job: Job, s: State, t: nat)
    requires t < |s.threads|
  {
    match s.threads[t]
    case Copying(x, k) => x < s.next && x < |job.slabs| && k <= job.perExpert
      && forall u :: 0 <= u < |s.threads| && CopiedBy(s, x, u) ==> u == t
    case Exited => s.next > |job.slabs|
    case _ => true
  }

  ghost predicate Inv(job: Job, s: State) {
    && job.Valid() && Shaped(job, s)
    && (forall t :: 0 <= t < |s.threads| ==> ThreadInv(job, s, t))
    && (forall x :: 0 <= x < |job.slabs| ==> SlotInv(job, s, x))
    && s.next <= |job.slabs| + Exits(s.threads)
    && s.done + Busy(s.threads) == (if s.next < |job.slabs| then s.next else |job.slabs|)
  }

  lemma InitInv(job: Job, m: nat, s: State)
    requires job.Valid() && Init(job, m, s)
    ensures Inv(job, s)
  {
    CountBounds(s.threads);
  }

  lemma TakeStep(job: Job, s: State, t: nat)
    requires Inv(job, s) && Enabled(job, s, Take(t))
    ensures Inv(job, Next(job, s, Take(t)))
  {
    var s' := Next(job, s, Take(t));
    CountUpdate(s.threads, t, s'.threads[t]);
    hide Exits, Busy;
    assert ThreadInv(job, s, t);
    forall u | 0 <= u < |s.threads| ensures ThreadInv(job, s', u) {
      assert ThreadInv(job, s, u);
      forall x, v: nat | v < |s.threads| && v != t ensures CopiedBy(s', x, v) == CopiedBy(s, x, v) {}
      forall v: nat | v < |s.threads| ensures !CopiedBy(s, s.next, v) { assert ThreadInv(job, s, v); }
    }
    forall x | 0 <= x < |job.slabs| ensures SlotInv(job, s', x) {
      assert SlotInv(job, s, x);
      forall u | 0 <= u < |s.threads| && u != t ensures CopiedBy(s', x, u) == CopiedBy(s, x, u) {}
      if x == s.next { assert CopiedBy(s', x, t) && Untouched(s, x); }
    }
  }

  lemma CopyStep(job: Job, s: State, t: nat)
    requires Inv(job, s) && Enabled(job, s, Copy(t))
    ensures s.threads[t].xid < |job.slabs| && Inv(job, Next(job, s, Copy(t)))
  {
    assert ThreadInv(job, s, t);
    var s' := Next(job, s, Copy(t));
    CountUpdate(s.threads, t, s'.threads[t]);
    hide Exits, Busy;
    var mine := s.threads[t].xid;
    assert CopiedBy(s', mine, t);
    forall u | 0 <= u < |s.threads| ensures ThreadInv(job, s', u) {
      assert ThreadInv(job, s, u);
      forall x, v: nat | v < |s.threads| ensures CopiedBy(s', x, v) == CopiedBy(s, x, v) {}
    }
    forall x | 0 <= x < |job.slabs| ensures SlotInv(job, s', x) {
      assert SlotInv(job, s, x);
      forall u | 0 <= u < |s.threads| ensures CopiedBy(s', x, u) == CopiedBy(s, x, u) {}
      if x == mine { assert CopiedBy(s, x, t); }
    }
  }

  lemma CopiedStep(job: Job, s: State, t: nat)
    requires Inv(job, s) && Enabled(job, s, Copied(t))
    ensures s.threads[t].xid < |job.slabs| && Inv(job, Next(job, s, Copied(t)))
  {
    assert ThreadInv(job, s, t);
    var s' := Next(job, s, Copied(t));
    CountUpdate(s.threads, t, Reporting);
    hide Exits, Busy;
    var mine := s.threads[t].xid;
    assert CopiedBy(s, mine, t) && SlotInv(job, s, mine);
    forall u | 0 <= u < |s.threads| ensures ThreadInv(job, s', u) {
      assert ThreadInv(job, s, u);
      forall x, v: nat | v < |s.threads| ensures CopiedBy(s', x, v) ==> CopiedBy(s, x, v) {}
    }
    forall x | 0 <= x < |job.slabs| ensures SlotInv(job, s', x) {
      assert SlotInv(job, s, x);
      forall u | 0 <= u < |s.threads| && u != t ensures CopiedBy(s', x, u) == CopiedBy(s, x, u) {}
    }
  }

  lemma ReportStep(job: Job, s: State, t: nat)
    requires Inv(job, s) && Enabled(job, s, Report(t))
    ensures Inv(job, Next(job, s, Report(t)))
  {
    var s' := Next(job, s, Report(t));
    CountUpdate(s.threads, t, Taking);
    hide Exits, Busy;
    forall u | 0 <= u < |s.threads| ensures ThreadInv(job, s', u) {
      assert ThreadInv(job, s, u);
      forall x, v: nat | v < |s.threads| ensures CopiedBy(s', x, v) ==> CopiedBy(s, x, v) {}
    }
    forall x | 0 <= x < |job.slabs| ensures SlotInv(job, s', x) {
      assert SlotInv(job, s, x);
      forall u | 0 <= u < |s.threads| ensures CopiedBy(s', x, u) == CopiedBy(s, x, u) {}
    }
  }

  lemma OwnSlot(job: Job, s: State, step: Step)
    requires Inv(job, s) && Enabled(job, s, step)
    ensures s.threads[step.t].Copying? ==> s.threads[step.t].xid < |job.slabs|
  {
    assert ThreadInv(job, s, step.t);
  }

  /** Every step of every thread keeps the invariant. */
  lemma StepKeepsInv(job: Job, s: State, step: Step)
    requires Inv(job, s) && Enabled(job, s, step)
    ensures s.threads[step.t].Copying? ==> s.threads[step.t].xid < |job.slabs|
    ensures Inv(job, Next(job, s, step))
  {
    OwnSlot(job, s, step);
    match step
    case Take(t) => TakeStep(job, s, t);
    case Copy(t) => CopyStep(job, s, t);
    case Copied(t) => CopiedStep(job, s, t);
    case Report(t) => ReportStep(job, s, t);
    hide Inv, Enabled, Next, Shaped;
  }

  // ---- runs ------------------------------------------------------------------------------------------------

  /** One step leads from s to s'. */
  ghost predicate Follows(job: Job, s: State, step: Step, s': State) {
    && job.Valid() && Shaped(job, s) && Enabled(job, s, step)
    && (s.threads[step.t].Copying? ==> s.threads[step.t].xid < |job.slabs|)
    && s' == Next(job, s, step)
  }

  ghost predicate IsRun(job: Job, m: nat, states: seq<State>, steps: seq<Step>) {
    && job.Valid()
    && |states| == |steps| + 1
    && Init(job, m, states[0])
    && forall i :: 0 <= i < |steps| ==> Follows(job, states[i], steps[i], states[i + 1])
  }

  lemma {:induction false} RunKeepsInv(job: Job, m: nat, states: seq<State>, steps: seq<Step>, i: nat)
    requires IsRun(job, m, states, steps) && i < |states|
    ensures Inv(job, states[i]) && |states[i].threads| == m
  {
    if i == 0 {
      InitInv(job, m, states[0]);
    } else {
      RunKeepsInv(job, m, states, steps, i - 1);
      assert Follows(job, states[i - 1], steps[i - 1], states[i - 1 + 1]);
      StepKeepsInv(job, states[i - 1], steps[i - 1]);
      hide Inv, Init;
    }
  }

  ghost predicate AllExited(s: State) {
    forall t :: 0 <= t < |s.threads| ==> s.threads[t] == Exited
  }

  /** When every thread has left its loop, every byte of every slab was written exactly once, with its value. */
  lemma FinishedIsComplete(job: Job, s: State)
    requires Inv(job, s) && AllExited(s) && |s.threads| > 0
    ensures s.out == job.slabs && s.done == |job.slabs| && Shaped(job, s)
    ensures forall x, j :: 0 <= x < |job.slabs| && 0 <= j < job.perExpert ==> s.writes[x][j] == 1
  {
    assert s.threads[0] == Exited && ThreadInv(job, s, 0);
    CountBounds(s.threads);
    hide Exits, Busy;
    forall x | 0 <= x < |job.slabs|
      ensures s.out[x] == job.slabs[x] && forall j :: 0 <= j < job.perExpert ==> s.writes[x][j] == 1
    {
      assert SlotInv(job, s, x);
      assert forall t :: 0 <= t < |s.threads| ==> !CopiedBy(s, x, t);
      assert WrittenTo(job, s, x, job.perExpert);
    }
  }

  /** The same for a whole run of any number of threads in any order. */
  lemma RunFillsEverySlab(job: Job, m: nat, states: seq<State>, steps: seq<Step>)
    requires m > 0 && IsRun(job, m, states, steps) && AllExited(states[|steps|])
    ensures var last := states[|steps|];
      && last.out == job.slabs && last.done == |job.slabs| && Shaped(job, last)
      && forall x, j :: 0 <= x < |job.slabs| && 0 <= j < job.perExpert ==> last.writes[x][j] == 1
  {
    RunKeepsInv(job, m, states, steps, |steps|);
    FinishedIsComplete(job, states[|steps|]);
    hide Inv, IsRun, AllExited, Shaped;
  }

  /** A thread that has not left its loop can always take a step. */
  lemma NeverStuck(job: Job, s: State, t: nat) returns (step: Step)
    requires Inv(job, s) && t < |s.threads| && s.threads[t] != Exited
    ensures Enabled(job, s, step) && step.t == t
  {
    assert ThreadInv(job, s, t);
    match s.threads[t]
    case Taking => step := Take(t);
    case Copying(x, k) => step := if k < job.perExpert then Copy(t) else Copied(t);
    case Reporting => step := Report(t);
  }

  // ---- every run ends ----------------------------------------------------------------------------------------

  function PlaceRank(job: Job, p: Place): nat {
    match p
    case Taking => 1
    case Copying(_, k) => if k <= job.perExpert then job.perExpert - k + 3 else 0
    case Reporting => 2
    case Exited => 0
  }

  function PlaceRanks(job: Job, ts: seq<Place>): nat {
    if |ts| == 0 then 0 else PlaceRanks(job, ts[..|ts| - 1]) + PlaceRank(job, ts[|ts| - 1])
  }

  lemma {:induction false} PlaceRanksUpdate(job: Job, ts: seq<Place>, t: nat, p: Place)
    requires t < |ts|
    ensures PlaceRanks(job, ts[t := p]) + PlaceRank(job, ts[t]) == PlaceRanks(job, ts) + PlaceRank(job, p)
  {
    var n := |ts| - 1;
    if t < n {
      PlaceRanksUpdate(job, ts[..n], t, p);
      assert ts[t := p][..n] == ts[..n][t := p];
    } else {
      assert ts[t := p][..n] == ts[..n];
    }
  }

  function Product(a: nat, b: nat): nat { a * b }

  lemma ProductStep(a: nat, b: nat)
    requires a > 0
    ensures Product(a, b) == Product(a - 1, b) + b
  {
  }

  /** Slots still to be handed out, and the threads' own distance to the end of their loops. */
  ghost function Rank(job: Job, s: State): nat {
    var left: int := |job.slabs| + |s.threads| - s.next;
    Product(if left < 0 then 0 else left, job.perExpert + 3) + PlaceRanks(job, s.threads)
  }

  lemma StepLowersRank(job: Job, s: State, step: Step)
    requires Inv(job, s) && Enabled(job, s, step)
    requires s.threads[step.t].Copying? ==> s.threads[step.t].xid < |job.slabs|
    ensures Rank(job, Next(job, s, step)) < Rank(job, s)
  {
    var s' := Next(job, s, step);
    PlaceRanksUpdate(job, s.threads, step.t, s'.threads[step.t]);
    assert ThreadInv(job, s, step.t);
    if step.Take? {
      NotAllExited(s.threads, step.t);
      ProductStep(|job.slabs| + |s.threads| - s.next, job.perExpert + 3);
    }
    hide PlaceRanks, Product, Exits, Busy;
  }

  lemma {:induction false} NotAllExited(ts: seq<Place>, t: nat)
    requires t < |ts| && ts[t] != Exited
    ensures Exits(ts) < |ts|
  {
    var n := |ts| - 1;
    if t < n { NotAllExited(ts[..n], t); } else { CountBounds(ts[..n]); }
  }

  /** No run is longer than the rank it starts with. */
  lemma {:induction false} RunIsBounded(job: Job, m: nat, states: seq<State>, steps: seq<Step>, i: nat)
    requires IsRun(job, m, states, steps) && i <= |steps|
    ensures i + Rank(job, states[i]) <= Rank(job, states[0])
  {
    hide Rank;
    if i == 0 {
    } else {
      RunIsBounded(job, m, states, steps, i - 1);
      RunKeepsInv(job, m, states, steps, i - 1);
      assert Follows(job, states[i - 1], steps[i - 1], states[i - 1 + 1]);
      StepLowersRank(job, states[i - 1], steps[i - 1]);
      hide Inv, Init;
    }
  }
}

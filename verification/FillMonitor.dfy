/**
 The one-shot whole-clip fill (clipboard/src/macos.rs `FillCoordinator`): any number of
 threads call `ensure_filled`, a mutex and a condition variable order them.

 A step is what a thread does between two scheduling points; `wait` releases the lock and
 goes to sleep in one, and may wake for no reason.
 */
module FillMonitor {
  type Tid = nat

  datatype Progress = Idle | InFlight | Done(success: bool)

  /** What one look at `progress` under the lock makes a caller do. */
  datatype Verdict = RunFill | Wait | Return

  function Look(p: Progress): (Progress, Verdict) {
    match p
    case Idle => (InFlight, RunFill)
    case InFlight => (InFlight, Wait)
    case Done(_) => (p, Return)
  }

  class FillCoordinator {
    var progress: Progress

    constructor ()
      ensures progress == Idle
    {
      progress := Idle;
    }

    /** One turn of the loop of `ensure_filled`, with the lock held. */
    method LookUnderLock() returns (verdict: Verdict)
      modifies this
      ensures (progress, verdict) == Look(old(progress))
    {
      match progress {
        case Idle =>
          progress := InFlight;
          verdict := RunFill;
        case InFlight => verdict := Wait;
        case Done(_) => verdict := Return;
      }
    }

    method PublishUnderLock(success: bool)
      modifies this
      ensures progress == Done(success)
    {
      progress := Done(success);
    }

    method Incomplete() returns (r: bool)
      ensures r <==> progress == Done(false)
    {
      r := progress.Done? && !progress.success;
    }
  }

  // ----- Threads ---------------------------------------------------------------------

  /**
   Where a thread is. Looking, Publishing, Published and Notified hold the lock;
   Asleep is in the condition variable's queue.
   */
  datatype Pc =
    | Outside | WantsLock | Looking | Filling | WantsPublish(success: bool) | Publishing(success: bool)
    | Published | Notified | Asleep | Returned

  datatype State = State(progress: Progress, holder: set<Tid>, pcs: map<Tid, Pc>, fills: seq<bool>, started: nat)

  function Initial(threads: set<Tid>): State {
    State(Idle, {}, map t | t in threads :: Outside, [], 0)
  }

  predicate Holds(pc: Pc) {
    pc.Looking? || pc.Publishing? || pc.Published? || pc.Notified?
  }

  /** The thread that runs the fill, until `Done` is published. */
  predicate Fills(pc: Pc) {
    pc.Filling? || pc.WantsPublish? || pc.Publishing?
  }

  datatype Step =
    | Enter(t: Tid)
    | Acquire(t: Tid)
    | Glance(t: Tid)
    | FillEnds(t: Tid, success: bool)
    | Publish(t: Tid)
    | NotifyAll(t: Tid)
    | Leave(t: Tid)
    | WakeAnyway(t: Tid)

  predicate Enabled(s: State, step: Step) {
    && step.t in s.pcs
    && var pc := s.pcs[step.t];
    match step
    case Enter(_) => pc.Outside?
    case Acquire(_) => (pc.WantsLock? || pc.WantsPublish?) && s.holder == {}
    case Glance(_) => pc.Looking?
    case FillEnds(_, _) => pc.Filling?
    case Publish(_) => pc.Publishing?
    case NotifyAll(_) => pc.Published?
    case Leave(_) => pc.Notified?
    case WakeAnyway(_) => pc.Asleep?
  }

  function Woken(pcs: map<Tid, Pc>): map<Tid, Pc> {
    map t | t in pcs :: if pcs[t].Asleep? then WantsLock else pcs[t]
  }

  function Next(s: State, step: Step): State
    requires Enabled(s, step)
  {
    var t := step.t;
    match step
    case Enter(_) => s.(pcs := s.pcs[t := WantsLock])
    case Acquire(_) =>
      s.(holder := {t}, pcs := s.pcs[t := if s.pcs[t].WantsLock? then Looking else Publishing(s.pcs[t].success)])
    case Glance(_) =>
      var (progress, verdict) := Look(s.progress);
      s.(progress := progress, holder := s.holder - {t},
         started := if verdict.RunFill? then s.started + 1 else s.started,
         pcs := s.pcs[t := if verdict.RunFill? then Filling else if verdict.Wait? then Asleep else Returned])
    case FillEnds(_, success) => s.(fills := s.fills + [success], pcs := s.pcs[t := WantsPublish(success)])
    case Publish(_) => s.(progress := Done(s.pcs[t].success), pcs := s.pcs[t := Published])
    case NotifyAll(_) => s.(pcs := Woken(s.pcs)[t := Notified])
    case Leave(_) => s.(holder := s.holder - {t}, pcs := s.pcs[t := Returned])
    case WakeAnyway(_) => s.(pcs := s.pcs[t := WantsLock])
  }

  // ----- What every step keeps ----------------------------------------------------------

  ghost predicate LockInv(s: State) {
    && (forall t :: t in s.pcs && Holds(s.pcs[t]) <==> t in s.holder)
    && (forall t, u :: t in s.holder && u in s.holder ==> t == u)
  }

  predicate Matches(s: State, pc: Pc) {
    match pc
    case WantsPublish(success) => s.fills == [success]
    case Publishing(success) => s.fills == [success]
    case Filling => s.fills == []
    case _ => true
  }

  /** One thread fills while the fill is in flight; its outcome is what is published. */
  predicate FillInv(s: State) {
    && (forall t, u :: t in s.pcs && u in s.pcs && Fills(s.pcs[t]) && Fills(s.pcs[u]) ==> t == u)
    && (s.progress.InFlight? <==> exists t :: t in s.pcs && Fills(s.pcs[t]))
    && (forall t :: t in s.pcs ==> Matches(s, s.pcs[t]))
    && s.started == (if s.progress.Idle? then 0 else 1)
    && (s.progress.Idle? ==> s.fills == [])
    && (s.progress.Done? ==> s.fills == [s.progress.success])
  }

  /** A sleeper waits for a fill that is in flight, or for the notification about to be sent. */
  predicate SleepInv(s: State) {
    && (forall t :: t in s.pcs && s.pcs[t].Asleep? ==> !s.progress.Idle?)
    && (s.progress.Done? && (exists t :: t in s.pcs && s.pcs[t].Asleep?) ==>
          exists t :: t in s.pcs && s.pcs[t].Published?)
    && (forall t :: t in s.pcs && (s.pcs[t].Published? || s.pcs[t].Notified? || s.pcs[t].Returned?) ==> s.progress.Done?)
  }

  ghost predicate Inv(s: State) {
    LockInv(s) && FillInv(s) && SleepInv(s)
  }

  lemma StepKeepsLock(s: State, step: Step)
    requires Inv(s) && Enabled(s, step)
    ensures LockInv(Next(s, step))
  {
  }

  /** Apart from the thread that moves, and from sleepers that are woken, threads stay where they are. */
  lemma OthersStay(s: State, step: Step, u: Tid)
    requires Enabled(s, step) && u in s.pcs && u != step.t
    ensures u in Next(s, step).pcs
    ensures Next(s, step).pcs[u] == s.pcs[u] || (s.pcs[u].Asleep? && Next(s, step).pcs[u].WantsLock?)
  {
  }

  lemma FillerMoves(s: State, step: Step)
    requires FillInv(s) && Enabled(s, step)
    ensures var p, q := s.pcs[step.t], Next(s, step).pcs[step.t];
      && (Fills(q) ==> Fills(p) || (step.Glance? && s.progress.Idle?))
      && (Fills(p) && !Fills(q) ==> step.Publish?)
  {
  }

  lemma StepKeepsFill(s: State, step: Step)
    requires Inv(s) && Enabled(s, step)
    ensures FillInv(Next(s, step))
  {
    var next, t := Next(s, step), step.t;
    FillerMoves(s, step);
    forall u | u in s.pcs && u != t
      ensures u in next.pcs && (Fills(next.pcs[u]) <==> Fills(s.pcs[u])) && (Matches(next, s.pcs[u]) ==> Matches(next, next.pcs[u]))
    {
      OthersStay(s, step, u);
    }
    assert next.pcs.Keys == s.pcs.Keys;
    assert step.Glance? && s.progress.Idle? ==> Fills(next.pcs[t]);
  }

  lemma StepKeepsSleep(s: State, step: Step)
    requires Inv(s) && Enabled(s, step)
    ensures SleepInv(Next(s, step))
  {
    var next, t := Next(s, step), step.t;
    assert forall u :: u in s.pcs && u != t ==> u in next.pcs && (next.pcs[u].Asleep? ==> next.pcs[u] == s.pcs[u]);
    if step.Publish? {
      assert next.pcs[t].Published?;
    } else if s.progress.Done? && exists u :: u in s.pcs && s.pcs[u].Asleep? {
      var u :| u in s.pcs && s.pcs[u].Published?;
      assert u in s.holder;
      assert step.NotifyAll? || (u != t && next.pcs[u].Published?);
    }
  }

  predicate Legal(s: State, run: seq<Step>)
    decreases run
  {
    run == [] || (Enabled(s, run[0]) && Legal(Next(s, run[0]), run[1..]))
  }

  function After(s: State, run: seq<Step>): State
    requires Legal(s, run)
    decreases run
  {
    if run == [] then s else After(Next(s, run[0]), run[1..])
  }

  lemma {:induction false} RunKeepsInv(s: State, run: seq<Step>)
    requires Inv(s) && Legal(s, run)
    ensures Inv(After(s, run))
    decreases run
  {
    if run != [] {
      StepKeepsLock(s, run[0]);
      StepKeepsFill(s, run[0]);
      StepKeepsSleep(s, run[0]);
      RunKeepsInv(Next(s, run[0]), run[1..]);
    }
  }

  /**
   For any threads and any interleaving: the fill runs at most once, nobody returns before
   its outcome is published, the outcome published is the fill's, and a thread asleep
   after the publication is about to be notified.
   */
  lemma FillRunsOnce(threads: set<Tid>, run: seq<Step>, s: State)
    requires Legal(Initial(threads), run) && s == After(Initial(threads), run)
    ensures s.started <= 1 && |s.fills| <= 1
    ensures (exists t :: t in s.pcs && s.pcs[t].Returned?) ==> s.progress.Done? && s.fills == [s.progress.success]
    ensures s.progress.Done? && (exists t :: t in s.pcs && s.pcs[t].Asleep?) ==>
      exists u :: u in s.pcs && s.pcs[u].Published? && s.holder == {u}
  {
    RunKeepsInv(Initial(threads), run);
    if s.progress.Done? && (exists t :: t in s.pcs && s.pcs[t].Asleep?) {
      var u :| u in s.pcs && s.pcs[u].Published?;
      assert u in s.holder;
      assert s.holder == {u};
    }
  }

  // ----- Nobody waits for ever --------------------------------------------------------------

  predicate Busy(pc: Pc) {
    !pc.Outside? && !pc.Returned?
  }

  /** While a caller has not returned, some thread has a step of its own to take. */
  lemma NeverStuck(s: State, t: Tid) returns (step: Step)
    requires Inv(s) && t in s.pcs && Busy(s.pcs[t])
    ensures Enabled(s, step) && !step.Enter? && !step.WakeAnyway?
  {
    if h :| h in s.holder {
      step := StepOfHolder(s, h);
    } else if s.pcs[t].Asleep? {
      assert s.progress.InFlight?;
      var u :| u in s.pcs && Fills(s.pcs[u]);
      step := if s.pcs[u].Filling? then FillEnds(u, true) else Acquire(u);
    } else {
      assert !Holds(s.pcs[t]);
      step := if s.pcs[t].Filling? then FillEnds(t, true) else Acquire(t);
    }
  }

  lemma StepOfHolder(s: State, h: Tid) returns (step: Step)
    requires LockInv(s) && h in s.holder
    ensures Enabled(s, step) && !step.Enter? && !step.WakeAnyway?
  {
    step := match s.pcs[h]
      case Looking => Glance(h)
      case Publishing(_) => Publish(h)
      case Published => NotifyAll(h)
      case _ => Leave(h);
  }

  /** What is published stays. */
  lemma {:induction false} DoneIsFinal(s: State, run: seq<Step>)
    requires Inv(s) && Legal(s, run) && s.progress.Done?
    ensures After(s, run).progress == s.progress
    decreases run
  {
    if run != [] {
      StepKeepsLock(s, run[0]);
      StepKeepsFill(s, run[0]);
      StepKeepsSleep(s, run[0]);
      DoneIsFinal(Next(s, run[0]), run[1..]);
    }
  }

  // ----- And everybody returns ------------------------------------------------------------------

  /** An upper bound on the steps a thread still takes, if nothing wakes it for no reason. */
  function Rank(progress: Progress, pc: Pc): nat {
    match pc
    case Outside => 13
    case WantsLock => if progress.Done? then 3 else 12
    case Looking => if progress.Done? then 2 else 11
    case Filling => 10
    case WantsPublish(_) => 9
    case Publishing(_) => 8
    case Published => 7
    case Notified => 1
    case Asleep => 6
    case Returned => 0
  }

  function Work(s: State, threads: seq<Tid>): nat {
    if threads == [] then 0
    else (if threads[0] in s.pcs then Rank(s.progress, s.pcs[threads[0]]) else 0) + Work(s, threads[1..])
  }

  lemma RanksFall(s: State, step: Step, u: Tid)
    requires Inv(s) && Enabled(s, step) && !step.WakeAnyway? && u in s.pcs
    ensures u in Next(s, step).pcs
    ensures var next := Next(s, step); Rank(next.progress, next.pcs[u]) <= Rank(s.progress, s.pcs[u])
    ensures u == step.t ==> var next := Next(s, step); Rank(next.progress, next.pcs[u]) < Rank(s.progress, s.pcs[u])
  {
  }

  lemma {:induction false} WorkFalls(s: State, step: Step, threads: seq<Tid>)
    requires Inv(s) && Enabled(s, step) && !step.WakeAnyway?
    ensures Work(Next(s, step), threads) <= Work(s, threads)
    ensures step.t in threads ==> Work(Next(s, step), threads) < Work(s, threads)
    decreases threads
  {
    if threads != [] {
      var u := threads[0];
      if u in s.pcs {
        RanksFall(s, step, u);
      } else {
        assert Next(s, step).pcs.Keys == s.pcs.Keys;
      }
      WorkFalls(s, step, threads[1..]);
    }
  }

  /** A run without idle wakes is no longer than the work there was: no thread can be kept from returning. */
  lemma {:induction false} RunsAreBounded(s: State, run: seq<Step>, threads: seq<Tid>)
    requires Inv(s) && Legal(s, run) && (forall t :: t in s.pcs ==> t in threads)
    requires forall step :: step in run ==> !step.WakeAnyway?
    ensures |run| + Work(After(s, run), threads) <= Work(s, threads)
    decreases run
  {
    if run != [] {
      assert run[0] in run;
      var next := Next(s, run[0]);
      WorkFalls(s, run[0], threads);
      StepKeepsLock(s, run[0]);
      StepKeepsFill(s, run[0]);
      StepKeepsSleep(s, run[0]);
      assert next.pcs.Keys == s.pcs.Keys;
      RunsAreBounded(next, run[1..], threads);
    }
  }
}

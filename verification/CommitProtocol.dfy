/** The begin/commit protocol of rns_shell/compositor/Compositor.cpp: many threads change the tree under a lock,
    and a task of the main loop renders it. Every step below is one action of one thread or of the main loop. */
module CommitProtocol {
  type Thread = nat

  datatype UpdateState = Idle | Scheduled | InProgress

  /** Where a thread is: between begin and commit, rendering at once, or scheduling a task. */
  datatype Phase = Outside | Mutating | RenderingNow | Unlocking | Dispatching

  datatype TaskPhase = Waiting | Rendering | Rendered

  datatype Owner = Free | HeldBy(thread: Thread) | HeldByTask

  /** Versions of the tree count its mutations; `committed` and `rendered` are the latest version to be so. */
  datatype State = State(hasContext: bool, threads: map<Thread, Phase>, isMutating: Owner, update: UpdateState,
                         queued: nat, task: TaskPhase, tree: nat, committed: nat, rendered: nat)

  datatype Step =
    | Begin(t: Thread)
    | Mutate(t: Thread)
    | CommitWithoutContext(t: Thread)
    | CommitImmediately(t: Thread)
    | FinishImmediate(t: Thread)
    | CommitIdle(t: Thread)
    | CommitScheduled(t: Thread)
    | CommitInProgress(t: Thread)
    | Unlock(t: Thread)
    | Dispatch(t: Thread)
    | TaskStarts
    | TaskRenders
    | TaskEnds

  predicate At(s: State, t: Thread, phase: Phase) {
    t in s.threads && s.threads[t] == phase
  }

  function Move(s: State, t: Thread, phase: Phase): State {
    s.(threads := s.threads[t := phase])
  }

  /** May this step be taken now? Only a free lock can be taken. */
  predicate Enabled(s: State, step: Step) {
    match step
    case Begin(t) => At(s, t, Outside) && s.isMutating.Free?
    case Mutate(t) => At(s, t, Mutating)
    case CommitWithoutContext(t) => At(s, t, Mutating) && !s.hasContext
    case CommitImmediately(t) => At(s, t, Mutating) && s.hasContext
    case FinishImmediate(t) => At(s, t, RenderingNow)
    case CommitIdle(t) => At(s, t, Mutating) && s.hasContext && s.update.Idle?
    case CommitScheduled(t) => At(s, t, Mutating) && s.hasContext && s.update.Scheduled?
    case CommitInProgress(t) => At(s, t, Mutating) && s.hasContext && s.update.InProgress?
    case Unlock(t) => At(s, t, Unlocking)
    case Dispatch(t) => At(s, t, Dispatching)
    case TaskStarts => s.task.Waiting? && s.queued > 0 && s.isMutating.Free?
    case TaskRenders => s.task.Rendering?
    case TaskEnds => s.task.Rendered?
  }

  function Apply(s: State, step: Step): State
    requires Enabled(s, step)
  {
    match step
    case Begin(t) => Move(s, t, Mutating).(isMutating := HeldBy(t))
    case Mutate(_) => s.(tree := s.tree + 1)
    case CommitWithoutContext(t) => Move(s, t, Outside).(isMutating := Free, committed := s.tree)
    case CommitImmediately(t) => Move(s, t, RenderingNow)
    case FinishImmediate(t) => Move(s, t, Outside).(isMutating := Free, committed := s.tree, rendered := s.tree)
    case CommitIdle(t) => Move(s, t, Unlocking).(update := Scheduled, committed := s.tree)
    case CommitScheduled(t) => Move(s, t, Outside).(isMutating := Free, committed := s.tree)
    case CommitInProgress(t) => Move(s, t, Outside).(isMutating := Free, committed := s.tree)
    case Unlock(t) => Move(s, t, Dispatching).(isMutating := Free)
    case Dispatch(t) => Move(s, t, Outside).(queued := s.queued + 1)
    case TaskStarts => s.(queued := s.queued - 1, isMutating := HeldByTask, task := Rendering)
    case TaskRenders => s.(rendered := if s.hasContext then s.tree else s.rendered, task := Rendered)
    case TaskEnds => s.(update := Idle, isMutating := Free, task := Waiting)
  }

  predicate Initial(s: State) {
    && (forall t | t in s.threads :: s.threads[t].Outside?)
    && s.isMutating.Free? && s.update.Idle? && s.queued == 0 && s.task.Waiting?
    && s.tree == s.committed == s.rendered
  }

  // ---------------------------------------------------------------- what every step keeps

  /** A thread that is about to dispatch a task. */
  predicate Scheduling(s: State, t: Thread) {
    At(s, t, Unlocking) || At(s, t, Dispatching)
  }

  function Schedulers(s: State): set<Thread> {
    set t | t in s.threads && Scheduling(s, t)
  }

  /** The render tasks that are about to be dispatched, queued or running. */
  function Tasks(s: State): nat {
    |Schedulers(s)| + s.queued + if s.task.Waiting? then 0 else 1
  }

  /** Whoever is between locking and unlocking owns the lock. */
  predicate Owns(s: State, t: Thread) {
    At(s, t, Mutating) || At(s, t, RenderingNow) || At(s, t, Unlocking)
  }

  ghost predicate LockRight(s: State) {
    && (forall t | t in s.threads :: Owns(s, t) <==> s.isMutating == HeldBy(t))
    && (s.isMutating.HeldBy? ==> s.isMutating.thread in s.threads)
    && (s.isMutating.HeldByTask? <==> !s.task.Waiting?)
  }

  /** `Scheduled` stands for exactly one task; `Idle` for none, and then everything committed has been rendered. */
  ghost predicate ScheduleRight(s: State) {
    match s.update
    case Idle => Tasks(s) == 0 && (s.hasContext ==> s.rendered == s.committed)
    case Scheduled => Tasks(s) == 1
    case InProgress => false
  }

  ghost predicate VersionsRight(s: State) {
    && s.rendered <= s.committed <= s.tree
    && ((s.isMutating.Free? || s.isMutating.HeldByTask? || exists t :: At(s, t, Unlocking)) ==> s.committed == s.tree)
    && (s.task.Rendered? && s.hasContext ==> s.rendered == s.tree)
  }

  ghost predicate Inv(s: State) {
    LockRight(s) && ScheduleRight(s) && VersionsRight(s)
  }

  lemma InitialInv(s: State)
    requires Initial(s)
    ensures Inv(s)
  {
    assert Schedulers(s) == {};
  }

  lemma StepKeepsLock(s: State, step: Step)
    requires LockRight(s) && Enabled(s, step)
    ensures LockRight(Apply(s, step))
  {
  }

  /** How a step changes the threads that are about to dispatch. */
  lemma StepSchedulers(s: State, step: Step)
    requires Enabled(s, step)
    ensures Schedulers(Apply(s, step)) ==
            match step
            case CommitIdle(t) => Schedulers(s) + {t}
            case Dispatch(t) => Schedulers(s) - {t}
            case _ => Schedulers(s)
  {
    var after := Apply(s, step);
    assert forall t | t in s.threads :: t in after.threads;
    match step
    case CommitIdle(t) => assert Schedulers(after) == Schedulers(s) + {t};
    case Dispatch(t) => assert Schedulers(after) == Schedulers(s) - {t};
    case _ => assert Schedulers(after) == Schedulers(s);
  }

  lemma StepKeepsSchedule(s: State, step: Step)
    requires Inv(s) && Enabled(s, step)
    ensures ScheduleRight(Apply(s, step))
  {
    StepSchedulers(s, step);
    match step
    case CommitIdle(t) => assert t !in Schedulers(s);
    case Dispatch(t) => assert t in Schedulers(s);
    case _ =>
  }

  lemma StepKeepsVersions(s: State, step: Step)
    requires Inv(s) && Enabled(s, step)
    ensures VersionsRight(Apply(s, step))
  {
  }

  /** No step of any thread or of the main loop breaks the protocol. */
  lemma StepKeepsInv(s: State, step: Step)
    requires Inv(s) && Enabled(s, step)
    ensures Inv(Apply(s, step))
  {
    StepKeepsLock(s, step);
    StepKeepsSchedule(s, step);
    StepKeepsVersions(s, step);
  }

  // ---------------------------------------------------------------- whole runs

  /** Can these steps be taken one after the other? */
  predicate Runs(s: State, steps: seq<Step>)
    decreases |steps|
  {
    steps != [] ==> Enabled(s, steps[0]) && Runs(Apply(s, steps[0]), steps[1..])
  }

  function After(s: State, steps: seq<Step>): State
    requires Runs(s, steps)
    decreases |steps|
  {
    if steps == [] then s else After(Apply(s, steps[0]), steps[1..])
  }

  lemma {:induction false} RunKeepsInv(s: State, steps: seq<Step>)
    requires Inv(s) && Runs(s, steps)
    ensures Inv(After(s, steps))
    decreases |steps|
  {
    if steps != [] {
      StepKeepsInv(s, steps[0]);
      RunKeepsInv(Apply(s, steps[0]), steps[1..]);
    }
  }

  /** The thread changes the tree or renders it. */
  predicate UsesTree(s: State, t: Thread) {
    At(s, t, Mutating) || At(s, t, RenderingNow)
  }

  /** What callers may rely on, in any run of any number of threads: one task while scheduled and none while idle;
      nobody uses the tree while it is rendered or changed; idle and unlocked means that all changes are rendered. */
  lemma EveryRunIsSafe(start: State, steps: seq<Step>)
    requires Initial(start) && Runs(start, steps)
    ensures var s := After(start, steps);
      && (s.update.Scheduled? <==> Tasks(s) == 1) && (s.update.Idle? <==> Tasks(s) == 0)
    ensures var s := After(start, steps);
      forall t, u | UsesTree(s, t) :: s.task.Waiting? && (UsesTree(s, u) ==> t == u)
    ensures var s := After(start, steps);
      s.update.Idle? && s.isMutating.Free? && s.hasContext ==> s.rendered == s.committed == s.tree
  {
    InitialInv(start);
    RunKeepsInv(start, steps);
  }

  // ---------------------------------------------------------------- nothing committed waits forever

  function OwnerWork(s: State): nat {
    match s.isMutating
    case HeldBy(t) =>
      if At(s, t, Mutating) then 10 else if At(s, t, RenderingNow) then 9 else 1
    case _ => 0
  }

  /** Bounds the steps left until everything is rendered, if nobody begins or changes anything. */
  function Work(s: State): nat {
    OwnerWork(s) + |Schedulers(s)| * 4 + s.queued * 3
    + match s.task
      case Waiting => 0
      case Rendering => 2
      case Rendered => 1
  }

  predicate AddsWork(step: Step) {
    step.Begin? || step.Mutate?
  }

  lemma StepShrinksWork(s: State, step: Step)
    requires Inv(s) && Enabled(s, step) && !AddsWork(step)
    ensures Work(Apply(s, step)) < Work(s) && Apply(s, step).tree == s.tree && Apply(s, step).hasContext == s.hasContext
  {
    StepSchedulers(s, step);
    match step
    case CommitIdle(t) => assert t !in Schedulers(s);
    case Dispatch(t) => assert t in Schedulers(s);
    case _ =>
  }

  /** While work is left, somebody can do some of it: the protocol has no deadlock. */
  lemma SomeStepIsEnabled(s: State) returns (step: Step)
    requires Inv(s) && (!s.update.Idle? || !s.isMutating.Free?)
    ensures Enabled(s, step) && !AddsWork(step)
  {
    match s.isMutating
    case HeldBy(t) =>
      step := if At(s, t, RenderingNow) then FinishImmediate(t)
              else if At(s, t, Unlocking) then Unlock(t)
              else if s.hasContext then CommitImmediately(t) else CommitWithoutContext(t);
    case HeldByTask =>
      step := if s.task.Rendering? then TaskRenders else TaskEnds;
    case Free =>
      if s.queued > 0 {
        step := TaskStarts;
      } else {
        var t :| t in Schedulers(s);
        step := Dispatch(t);
      }
  }

  /** From every reachable state, the threads and the main loop can render all changes by finishing what they began. */
  lemma {:induction false} EverythingCanBeRendered(s: State) returns (steps: seq<Step>)
    requires Inv(s)
    ensures Runs(s, steps) && forall i | 0 <= i < |steps| :: !AddsWork(steps[i])
    ensures var end := After(s, steps);
      end.update.Idle? && end.isMutating.Free? && end.tree == s.tree && (s.hasContext ==> end.rendered == s.tree)
    decreases Work(s)
  {
    if s.update.Idle? && s.isMutating.Free? {
      steps := [];
    } else {
      var step := SomeStepIsEnabled(s);
      StepKeepsInv(s, step);
      StepShrinksWork(s, step);
      var rest := EverythingCanBeRendered(Apply(s, step));
      steps := [step] + rest;
      assert steps[1..] == rest;
    }
  }
}

/** How ReactSkia/MountingManager.cpp hands transactions to the main loop without losing one.
    The scheduler posts from its own thread, at any point between the single steps of the main loop's do-while. */
module MountingProtocol {
  /** The next statement of `performTransaction`, if it is running. */
  datatype Loop = NotRunning | ClearFollowUp | SetInFlight | PullTransaction | ClearInFlight | TestFollowUp

  /** What the scheduler has read of `transactionInFlight_` when it does not act on it at once. */
  datatype Poster = Outside | Saw(inFlight: bool)

  /** Transactions are counted: those pushed to the coordinator, those announced by
      `schedulerDidFinishTransaction`, and those pulled and mounted. */
  datatype State = State(inFlight: bool, followUp: bool, queued: nat, loop: Loop, poster: Poster,
                         pushed: nat, announced: nat, pulled: nat)

  /** `Announce` is `schedulerDidFinishTransaction` in one step; `Look` and `Act` are its reading and its writing half. */
  datatype Step = Push | Announce | Look | Act | TaskStarts | LoopGoesOn

  predicate Enabled(s: State, step: Step) {
    match step
    case Push => true
    case Announce => s.poster.Outside?
    case Look => s.poster.Outside?
    case Act => s.poster.Saw?
    case TaskStarts => s.loop.NotRunning? && s.queued > 0
    case LoopGoesOn => !s.loop.NotRunning?
  }

  /** The writes of `schedulerDidFinishTransaction`, for what it has read. */
  function Announced(s: State, inFlight: bool): State {
    if inFlight
    then s.(announced := s.pushed, poster := Outside, followUp := true)
    else s.(announced := s.pushed, poster := Outside, inFlight := true, queued := s.queued + 1)
  }

  /** One statement of the do-while; pulling takes everything that has been pushed. */
  function LoopStep(s: State): State
    requires !s.loop.NotRunning?
  {
    match s.loop
    case ClearFollowUp => s.(followUp := false, loop := SetInFlight)
    case SetInFlight => s.(inFlight := true, loop := PullTransaction)
    case PullTransaction => s.(pulled := s.pushed, loop := ClearInFlight)
    case ClearInFlight => s.(inFlight := false, loop := TestFollowUp)
    case TestFollowUp => s.(loop := if s.followUp then ClearFollowUp else NotRunning)
  }

  function Apply(s: State, step: Step): State
    requires Enabled(s, step)
  {
    match step
    case Push => s.(pushed := s.pushed + 1)
    case Announce => Announced(s, s.inFlight)
    case Look => s.(poster := Saw(s.inFlight))
    case Act => Announced(s, s.poster.inFlight)
    case TaskStarts => s.(queued := s.queued - 1, loop := ClearFollowUp)
    case LoopGoesOn => LoopStep(s)
  }

  predicate Initial(s: State) {
    && !s.inFlight && !s.followUp && s.queued == 0 && s.loop.NotRunning? && s.poster.Outside?
    && s.pushed == s.announced == s.pulled
  }

  // ---------------------------------------------------------------- the invariant

  predicate BeforePull(loop: Loop) {
    loop.ClearFollowUp? || loop.SetInFlight? || loop.PullTransaction?
  }

  /** Somebody will still pull: a queued task, a loop before its pull, or one that will see the follow-up flag. */
  predicate WillPull(s: State) {
    s.queued > 0 || BeforePull(s.loop) || (s.followUp && (s.loop.ClearInFlight? || s.loop.TestFollowUp?))
  }

  /** A transaction in flight is in a queued task or in a loop that has yet to clear the flag. */
  predicate FlagRight(s: State) {
    s.inFlight ==> s.queued > 0 || BeforePull(s.loop) || s.loop.ClearInFlight?
  }

  predicate NothingLost(s: State) {
    s.announced > s.pulled ==> WillPull(s)
  }

  predicate Inv(s: State) {
    FlagRight(s) && NothingLost(s) && s.announced <= s.pushed && s.pulled <= s.pushed
  }

  /** With announcements in one step, every step of either thread keeps the invariant. */
  lemma StepKeepsInv(s: State, step: Step)
    requires Inv(s) && Enabled(s, step) && !step.Act?
    ensures Inv(Apply(s, step))
  {
  }

  /** A follow-up asked for after a look at the flag is lost exactly if, by then, the loop has ended,
      no task is queued, and there is something to pull. */
  lemma LateFollowUpExactly(s: State)
    requires Inv(s) && s.poster == Saw(true)
    ensures Inv(Apply(s, Act)) <==> s.queued > 0 || !s.loop.NotRunning? || s.pulled == s.pushed
  {
  }

  /** A follow-up asked for late is in time if, by then, a task is queued or the loop runs, or nothing is left to pull. */
  predicate Timely(s: State, step: Step) {
    step.Act? && s.poster == Saw(true) ==> s.queued > 0 || !s.loop.NotRunning? || s.pulled == s.pushed
  }

  /** With looking at the flag and acting on it apart, a step keeps the invariant exactly if it is in time. */
  lemma StepKeepsInvExactly(s: State, step: Step)
    requires Inv(s) && Enabled(s, step)
    ensures Inv(Apply(s, step)) <==> Timely(s, step)
  {
    if step.Act? && s.poster == Saw(true) {
      LateFollowUpExactly(s);
    }
  }

  /** And if it is late, everything rests at once, with a transaction announced that is not pulled. */
  lemma LateFollowUpRests(s: State, step: Step)
    requires Inv(s) && Enabled(s, step) && !Timely(s, step)
    ensures var after := Apply(s, step); after.queued == 0 && after.loop.NotRunning? && after.pulled < after.announced
  {
  }

  // ---------------------------------------------------------------- whole runs

  predicate Possible(s: State, steps: seq<Step>)
    decreases |steps|
  {
    steps != [] ==> Enabled(s, steps[0]) && Possible(Apply(s, steps[0]), steps[1..])
  }

  function StateAfter(s: State, steps: seq<Step>): State
    requires Possible(s, steps)
    decreases |steps|
  {
    if steps == [] then s else StateAfter(Apply(s, steps[0]), steps[1..])
  }

  /** Every late follow-up of the run is in time. */
  predicate TimelyRun(s: State, steps: seq<Step>)
    requires Possible(s, steps)
    decreases |steps|
  {
    steps != [] ==> Timely(s, steps[0]) && TimelyRun(Apply(s, steps[0]), steps[1..])
  }

  /** Nothing is lost at any point of the run. */
  predicate NeverLost(s: State, steps: seq<Step>)
    requires Possible(s, steps)
    decreases |steps|
  {
    NothingLost(s) && (steps != [] ==> NeverLost(Apply(s, steps[0]), steps[1..]))
  }

  /** A run of single steps loses nothing exactly if every late follow-up is in time. */
  lemma {:induction false} RunLosesNothingExactly(s: State, steps: seq<Step>)
    requires Inv(s) && Possible(s, steps)
    ensures NeverLost(s, steps) <==> TimelyRun(s, steps)
    decreases |steps|
  {
    if steps != [] {
      StepKeepsInvExactly(s, steps[0]);
      if Timely(s, steps[0]) {
        RunLosesNothingExactly(Apply(s, steps[0]), steps[1..]);
      } else {
        LateFollowUpRests(s, steps[0]);
      }
    }
  }

  predicate Atomic(steps: seq<Step>) {
    forall i | 0 <= i < |steps| :: !steps[i].Look? && !steps[i].Act?
  }

  lemma {:induction false} RunKeepsInv(s: State, steps: seq<Step>)
    requires Inv(s) && Possible(s, steps) && Atomic(steps)
    ensures Inv(StateAfter(s, steps))
    decreases |steps|
  {
    if steps != [] {
      StepKeepsInv(s, steps[0]);
      RunKeepsInv(Apply(s, steps[0]), steps[1..]);
    }
  }

  /** No announced transaction is lost, in any run; when the main loop is at rest, all of them have been pulled. */
  lemma NoTransactionIsLost(start: State, steps: seq<Step>)
    requires Initial(start) && Possible(start, steps) && Atomic(steps)
    ensures NothingLost(StateAfter(start, steps))
    ensures var s := StateAfter(start, steps); s.queued == 0 && s.loop.NotRunning? ==> s.announced <= s.pulled
  {
    RunKeepsInv(start, steps);
  }

  // ---------------------------------------------------------------- and all are pulled in the end

  /** Bounds the steps of the main loop until it rests; a follow-up flag that will be seen costs one more round. */
  function Work(s: State): nat {
    s.queued * 6
    + (if s.followUp && !s.loop.ClearFollowUp? && !s.loop.NotRunning? then 6 else 0)
    + match s.loop
      case NotRunning => 0
      case ClearFollowUp => 5
      case SetInFlight => 4
      case PullTransaction => 3
      case ClearInFlight => 2
      case TestFollowUp => 1
  }

  /** From every reachable state the main loop, left alone, comes to rest with every announced transaction mounted. */
  lemma {:induction false} AllArePulledInTheEnd(s: State) returns (steps: seq<Step>)
    requires Inv(s)
    ensures Possible(s, steps) && forall i | 0 <= i < |steps| :: steps[i].TaskStarts? || steps[i].LoopGoesOn?
    ensures var end := StateAfter(s, steps);
      end.queued == 0 && end.loop.NotRunning? && end.announced == s.announced <= end.pulled
    decreases Work(s)
  {
    if s.queued == 0 && s.loop.NotRunning? {
      steps := [];
    } else {
      var step := if s.loop.NotRunning? then TaskStarts else LoopGoesOn;
      StepKeepsInv(s, step);
      var rest := AllArePulledInTheEnd(Apply(s, step));
      steps := [step] + rest;
      assert steps[1..] == rest;
    }
  }

  // ---------------------------------------------------------------- a wake-up that gets lost

  predicate LeadsTo(s: State, steps: seq<Step>, end: State) {
    Possible(s, steps) && StateAfter(s, steps) == end
  }

  lemma {:induction false} OneStep(s: State, step: Step, mid: State, rest: seq<Step>, end: State)
    requires Enabled(s, step) && Apply(s, step) == mid && LeadsTo(mid, rest, end)
    ensures LeadsTo(s, [step] + rest, end)
  {
    assert ([step] + rest)[1..] == rest;
  }

  /** Three statements of the loop in a row. */
  lemma ThreeLoopSteps(s: State, rest: seq<Step>, end: State)
    requires s.loop.ClearFollowUp? && LeadsTo(LoopStep(LoopStep(LoopStep(s))), rest, end)
    ensures LeadsTo(s, [LoopGoesOn] + ([LoopGoesOn] + ([LoopGoesOn] + rest)), end)
  {
    OneStep(LoopStep(LoopStep(s)), LoopGoesOn, LoopStep(LoopStep(LoopStep(s))), rest, end);
    OneStep(LoopStep(s), LoopGoesOn, LoopStep(LoopStep(s)), [LoopGoesOn] + rest, end);
    OneStep(s, LoopGoesOn, LoopStep(s), [LoopGoesOn] + ([LoopGoesOn] + rest), end);
  }

  lemma LateLookRuns() returns (steps: seq<Step>)
    ensures LeadsTo(State(true, false, 0, ClearInFlight, Outside, 1, 1, 1), steps, State(false, true, 0, NotRunning, Outside, 2, 2, 1))
  {
    var end := State(false, true, 0, NotRunning, Outside, 2, 2, 1);
    var s10 := State(false, false, 0, NotRunning, Saw(true), 2, 1, 1);
    var s9 := s10.(loop := TestFollowUp);
    var s8 := s9.(inFlight := true, loop := ClearInFlight);
    var s7 := s8.(poster := Outside);
    OneStep(s10, Act, end, [], end);
    OneStep(s9, LoopGoesOn, s10, [Act] + [], end);
    OneStep(s8, LoopGoesOn, s9, [LoopGoesOn] + ([Act] + []), end);
    steps := [LoopGoesOn] + ([LoopGoesOn] + ([Act] + []));
    OneStep(s7, Look, s8, steps, end);
    steps := [Look] + steps;
    OneStep(s7.(pushed := 1), Push, s7, steps, end);
    steps := [Push] + steps;
  }

  /** The second transaction looks at the flag just before the loop clears it, and asks for a follow-up just after
      the loop has tested for one. Everything rests, and the transaction is not pulled. */
  lemma LostWakeUpExample() returns (steps: seq<Step>)
    ensures var start := State(false, false, 0, NotRunning, Outside, 0, 0, 0);
      Initial(start) && LeadsTo(start, steps, State(false, true, 0, NotRunning, Outside, 2, 2, 1))
  {
    var end := State(false, true, 0, NotRunning, Outside, 2, 2, 1);
    var s3 := State(true, false, 0, ClearFollowUp, Outside, 1, 1, 0);
    var s2 := s3.(queued := 1, loop := NotRunning);
    var s1 := State(false, false, 0, NotRunning, Outside, 1, 0, 0);
    steps := LateLookRuns();
    ThreeLoopSteps(s3, steps, end);
    steps := [LoopGoesOn] + ([LoopGoesOn] + ([LoopGoesOn] + steps));
    OneStep(s2, TaskStarts, s3, steps, end);
    steps := [TaskStarts] + steps;
    OneStep(s1, Announce, s2, steps, end);
    steps := [Announce] + steps;
    OneStep(s1.(pushed := 0), Push, s1, steps, end);
    steps := [Push] + steps;
  }
}

/** The service session: who controls it, and how it is formally closed. */
module ServiceSession {
  import opened Prelude
  import opened Text

  const AI_CLOSING_WAIT_MS := 30 * 60 * 1_000

  datatype Status = Open | WaitingCustomer | WaitingHuman | Paused | Closing | Closed

  datatype Control = Ai | Human

  datatype Priority = Low | Normal | High | Urgent

  datatype PrioritySource = FromAi | FromUser | FromSystem | FromImport

  datatype Snapshot = Snapshot(status: Status, control: Control, departmentId: Option<Text>,
                               responsibleUserId: Option<Text>, queueId: Option<Text>, priority: Priority,
                               priorityReason: Option<Text>, prioritySource: PrioritySource, resolved: bool,
                               pendingActions: seq<Text>, confirmedByCustomer: bool, aiClosingStartedAt: Option<int>,
                               closedAt: Option<int>, version: int)

  datatype Command =
    | RequestHuman(queueId: Text)
    | ExternalHumanMessage
    | Assume(userId: Text)
    | ReturnToQueue(queueId: Text)
    | ReturnToAi
    | Transfer(departmentId: Text, queue: Option<Text>, user: Option<Text>)
    | ChangePriority(priority: Priority, reason: Text, source: PrioritySource)
    | PauseForHigherPriority
    | ResumeAfterHigherPriority
    | BeginAiClosing(at: int)
    | CustomerReplied
    | FinishAiClosing(at: int)
    | CloseHuman(at: int)

  function RequireNonEmpty(value: Text): Result<Text> {
    if Trim(value) == [] then Err(ValidationError) else Ok(Trim(value))
  }

  /** An optional text counts as absent if it is empty. */
  function RequireIfGiven(value: Option<Text>): Result<Option<Text>> {
    if value.None? || value.value == [] then Ok(None)
    else match RequireNonEmpty(value.value) case Err(e) => Err(e) case Ok(t) => Ok(Some(t))
  }

  function Next(s: Snapshot): Snapshot {
    s.(version := s.version + 1)
  }

  /** `evolveServiceSession`. */
  function Evolve(s: Snapshot, command: Command): Result<Snapshot> {
    if s.status == Closed then Err(ValidationError)
    else match command
      case RequestHuman(queueId) =>
        (match RequireNonEmpty(queueId)
         case Err(e) => Err(e)
         case Ok(queue) =>
           Ok(Next(s).(status := WaitingHuman, control := Human, responsibleUserId := None, queueId := Some(queue),
                       aiClosingStartedAt := None)))
      case ExternalHumanMessage =>
        Ok(Next(s).(status := Open, control := Human, responsibleUserId := None, aiClosingStartedAt := None))
      case Assume(userId) =>
        (match RequireNonEmpty(userId)
         case Err(e) => Err(e)
         case Ok(user) =>
           Ok(Next(s).(status := Open, control := Human, responsibleUserId := Some(user), aiClosingStartedAt := None)))
      case ReturnToQueue(queueId) =>
        if s.control != Human then Err(ValidationError)
        else
          (match RequireNonEmpty(queueId)
           case Err(e) => Err(e)
           case Ok(queue) => Ok(Next(s).(status := WaitingHuman, responsibleUserId := None, queueId := Some(queue))))
      case ReturnToAi =>
        if s.control != Human then Err(ValidationError)
        else
          Ok(Next(s).(status := Open, control := Ai, responsibleUserId := None, queueId := None,
                      aiClosingStartedAt := None))
      case Transfer(departmentId, queue, user) =>
        (match (RequireIfGiven(user), RequireIfGiven(queue), RequireNonEmpty(departmentId))
         case (Ok(userId), Ok(queueId), Ok(department)) =>
           Ok(Next(s).(departmentId := Some(department), status := if userId.None? then WaitingHuman else Open,
                       control := Human, responsibleUserId := userId, queueId := queueId, aiClosingStartedAt := None,
                       resolved := false, confirmedByCustomer := false))
         case _ => Err(ValidationError))
      case ChangePriority(priority, reason, source) =>
        (match RequireNonEmpty(reason)
         case Err(e) => Err(e)
         case Ok(why) => Ok(Next(s).(priority := priority, priorityReason := Some(why), prioritySource := source)))
      case PauseForHigherPriority =>
        if s.status != Open then Err(ValidationError) else Ok(Next(s).(status := Paused))
      case ResumeAfterHigherPriority =>
        if s.status != Paused then Err(ValidationError) else Ok(Next(s).(status := Open))
      case BeginAiClosing(at) =>
        if s.control != Ai || !s.resolved || s.pendingActions != [] then Err(ValidationError)
        else Ok(Next(s).(status := Closing, aiClosingStartedAt := Some(at)))
      case CustomerReplied =>
        if s.status != Closing then Ok(s)
        else
          Ok(Next(s).(status := Open, resolved := false, confirmedByCustomer := false, aiClosingStartedAt := None))
      case FinishAiClosing(at) =>
        if s.status != Closing || s.control != Ai || s.aiClosingStartedAt.None? then Err(ValidationError)
        else if at - s.aiClosingStartedAt.value < AI_CLOSING_WAIT_MS then Err(ValidationError)
        else Ok(Next(s).(status := Closed, closedAt := Some(at), aiClosingStartedAt := None))
      case CloseHuman(at) =>
        if s.control != Human then Err(ValidationError)
        else Ok(Next(s).(status := Closed, closedAt := Some(at), aiClosingStartedAt := None))
  }

  /** `assertAiCustomerFacingDispatchAllowed`. */
  function Dispatch(s: Snapshot): Result<()> {
    if s.control != Ai then Err(Forbidden) else if s.status != Open then Err(Forbidden) else Ok(())
  }

  // ----- single commands -----

  /** What a command may touch: the priority, the department, the demand and the closing change only by
      the commands that are about them, and each effective command makes one version. */
  lemma CommandTouchesItsOwn(s: Snapshot, command: Command)
    requires Evolve(s, command).Ok?
    ensures var n := Evolve(s, command).value;
            && n.pendingActions == s.pendingActions
            && (!command.ChangePriority? ==>
                  (n.priority, n.priorityReason, n.prioritySource) == (s.priority, s.priorityReason, s.prioritySource))
            && (n.departmentId != s.departmentId ==> command.Transfer?)
            && (n.resolved != s.resolved ==> !n.resolved && (command.Transfer? || command.CustomerReplied?))
            && (n.confirmedByCustomer != s.confirmedByCustomer ==> !n.confirmedByCustomer && n.resolved == false)
            && (n.closedAt != s.closedAt ==> n.status == Closed && (command.FinishAiClosing? || command.CloseHuman?))
            && (n.status == Closed ==> n.closedAt == Some(command.at) && n.control == s.control)
            && (n.control == Ai && s.control == Human ==> command.ReturnToAi?)
            && (n.responsibleUserId.Some? && n.responsibleUserId != s.responsibleUserId ==>
                  n.control == Human && n.status == Open)
            && n.version == s.version + if command.CustomerReplied? && s.status != Closing then 0 else 1
  {
    hide RequireNonEmpty, RequireIfGiven;
  }

  /** A pause and its end leave everything but the version as it was. */
  lemma PauseIsUndone(s: Snapshot)
    requires s.status == Open
    ensures Evolve(s, PauseForHigherPriority).Ok?
    ensures Evolve(Evolve(s, PauseForHigherPriority).value, ResumeAfterHigherPriority) ==
            Ok(s.(version := s.version + 2))
  {
  }

  // ----- runs -----

  /** A command, or one of the two things the repository writes beside the commands: the AI has resolved
      the demand, or the customer has written and nothing counts as resolved any more. */
  datatype Step = Issue(command: Command) | DemandResolved(confirmed: bool) | CustomerWrote

  /** One step; a refused command changes nothing. */
  function Take(s: Snapshot, step: Step): Snapshot {
    match step
    case Issue(command) => (match Evolve(s, command) case Err(_) => s case Ok(next) => next)
    case DemandResolved(confirmed) =>
      if s.status == Closed then s else Next(s).(resolved := true, confirmedByCustomer := confirmed)
    case CustomerWrote =>
      if s.status == Closed then s
      else
        var replied := if s.status == Closing then Evolve(s, CustomerReplied).value else s;
        if replied.resolved || replied.confirmedByCustomer then
          Next(replied).(resolved := false, confirmedByCustomer := false)
        else replied
  }

  function After(first: Snapshot, steps: seq<Step>): Snapshot {
    if steps == [] then first else Take(After(first, steps[..|steps| - 1]), steps[|steps| - 1])
  }

  predicate Sound(s: Snapshot) {
    && (s.status == Closing <==> s.aiClosingStartedAt.Some?)
    && (s.status == Closing ==> s.control == Ai && s.resolved && s.pendingActions == [])
    && (s.responsibleUserId.Some? ==> s.control == Human)
    && (s.status == WaitingHuman ==> s.control == Human)
    && (s.status == Closed <==> s.closedAt.Some?)
  }

  /** How sessions are created: by the state of their conversation, with a responsible user only under human
      control, and with a closing time only if the conversation is closed. */
  predicate IsNew(s: Snapshot) {
    && (s.status, s.control) in
         {(WaitingCustomer, Ai), (WaitingHuman, Human), (Open, Human), (Closed, Ai), (Open, Ai)}
    && (s.responsibleUserId.Some? ==> s.control == Human)
    && s.aiClosingStartedAt.None? && (s.closedAt.Some? <==> s.status == Closed)
  }

  lemma NewIsSound(s: Snapshot)
    requires IsNew(s)
    ensures Sound(s) && s.status != Closing
  {
  }

  lemma EvolveKeeps(s: Snapshot, command: Command)
    requires Sound(s) && Evolve(s, command).Ok?
    ensures Sound(Evolve(s, command).value)
  {
    hide RequireNonEmpty, RequireIfGiven;
  }

  lemma TakeKeeps(s: Snapshot, step: Step)
    requires Sound(s)
    ensures Sound(Take(s, step))
    ensures s.status == Closed ==> Take(s, step) == s
  {
    if step.Issue? {
      hide Evolve, Sound;
      ClosedRefuses(s, step.command);
      if Evolve(s, step.command).Ok? {
        EvolveKeeps(s, step.command);
      }
    }
  }

  lemma ClosedRefuses(s: Snapshot, command: Command)
    ensures s.status == Closed ==> Evolve(s, command).Err?
  {
  }

  /** The AI may write to the customer only in a session that is neither being closed nor closed, and that
      no user is responsible for. */
  predicate AiWritesAlone(s: Snapshot) {
    Dispatch(s).Ok? ==> s.aiClosingStartedAt.None? && s.closedAt.None? && s.responsibleUserId.None?
  }

  /** What every run of a sound session keeps. */
  lemma {:induction false} RunKeeps(first: Snapshot, steps: seq<Step>)
    requires Sound(first)
    ensures Sound(After(first, steps)) && AiWritesAlone(After(first, steps))
  {
    if steps != [] {
      hide Take;
      RunKeeps(first, steps[..|steps| - 1]);
      TakeKeeps(After(first, steps[..|steps| - 1]), steps[|steps| - 1]);
    }
  }

  /** No command and no message changes a closed session. */
  lemma {:induction false} ClosedStays(first: Snapshot, steps: seq<Step>, n: nat)
    requires Sound(first) && n <= |steps| && After(first, steps[..n]).status == Closed
    ensures After(first, steps) == After(first, steps[..n])
    decreases |steps|
  {
    hide Take;
    if n == |steps| {
      assert steps[..n] == steps;
    } else {
      var before := steps[..|steps| - 1];
      assert before[..n] == steps[..n];
      ClosedStays(first, before, n);
      RunKeeps(first, before);
      TakeKeeps(After(first, before), steps[|steps| - 1]);
    }
  }

  // ----- the formal closing -----

  /** The step is a close that was accepted, at this time. */
  predicate ClosesAt(s: Snapshot, step: Step, at: int) {
    step.Issue? && (step.command == FinishAiClosing(at) || step.command == CloseHuman(at)) && Evolve(s, step.command).Ok?
  }

  lemma ClosingStepCloses(s: Snapshot, step: Step)
    requires s.status != Closed && Take(s, step).status == Closed
    ensures Take(s, step).closedAt.Some? && ClosesAt(s, step, Take(s, step).closedAt.value)
  {
    if step.Issue? && Evolve(s, step.command).Ok? {
      CommandTouchesItsOwn(s, step.command);
      OnlyClosesClose(s, step.command);
    }
  }

  lemma OnlyClosesClose(s: Snapshot, command: Command)
    requires Evolve(s, command).Ok? && Evolve(s, command).value.status == Closed
    ensures command.FinishAiClosing? || command.CloseHuman?
  {
    hide RequireNonEmpty, RequireIfGiven;
  }

  /** A session is closed only by a close that was accepted, and its closing time is the one that close gave. */
  lemma {:induction false} ClosedByAClose(first: Snapshot, steps: seq<Step>) returns (i: nat, at: int)
    requires Sound(first) && first.status != Closed && After(first, steps).status == Closed
    ensures i < |steps| && ClosesAt(After(first, steps[..i]), steps[i], at)
    ensures After(first, steps).closedAt == Some(at)
  {
    hide Take, ClosesAt, Sound;
    var last := |steps| - 1;
    var before := steps[..last];
    if After(first, before).status == Closed {
      i, at := ClosedByAClose(first, before);
      assert before[..i] == steps[..i];
      RunKeeps(first, before);
      TakeKeeps(After(first, before), steps[last]);
    } else {
      ClosingStepCloses(After(first, before), steps[last]);
      i, at := last, After(first, steps).closedAt.value;
    }
  }

  /** The customer replies, a human takes over, or the closing begins anew. */
  predicate Interrupts(step: Step) {
    step.CustomerWrote? ||
    (step.Issue? && (step.command.CustomerReplied? || step.command.RequestHuman? || step.command.ExternalHumanMessage? ||
                     step.command.Assume? || step.command.Transfer? || step.command.BeginAiClosing?))
  }

  /** The step was taken, not refused. */
  predicate Effective(s: Snapshot, step: Step) {
    step.Issue? ==> Evolve(s, step.command).Ok?
  }

  /** From its beginning at step `i` on, the closing has gone on without interruption. */
  ghost predicate ClosingSince(first: Snapshot, steps: seq<Step>, i: nat, at: int) {
    && i < |steps| && steps[i] == Issue(BeginAiClosing(at)) && Effective(After(first, steps[..i]), steps[i])
    && After(first, steps).status == Closing
    && After(first, steps).aiClosingStartedAt == Some(at)
    && forall k | i < k < |steps| :: !(Interrupts(steps[k]) && Effective(After(first, steps[..k]), steps[k]))
  }

  lemma ClosingStep(s: Snapshot, step: Step)
    requires Sound(s) && Take(s, step).status == Closing
    ensures if step.Issue? && step.command.BeginAiClosing? && Effective(s, step) then
              Take(s, step).aiClosingStartedAt == Some(step.command.at)
            else
              && s.status == Closing && Take(s, step).aiClosingStartedAt == s.aiClosingStartedAt
              && !(Interrupts(step) && Effective(s, step))
  {
    hide RequireNonEmpty;
  }

  lemma {:induction false} ClosingHasBegun(first: Snapshot, steps: seq<Step>) returns (i: nat)
    requires Sound(first) && first.status != Closing && After(first, steps).status == Closing
    ensures After(first, steps).aiClosingStartedAt.Some?
    ensures ClosingSince(first, steps, i, After(first, steps).aiClosingStartedAt.value)
  {
    hide Take, Effective, Interrupts;
    RunKeeps(first, steps);
    var last := |steps| - 1;
    var before, step := steps[..last], steps[last];
    RunKeeps(first, before);
    ClosingStep(After(first, before), step);
    if step.Issue? && step.command.BeginAiClosing? && Effective(After(first, before), step) {
      i := last;
    } else {
      i := ClosingHasBegun(first, before);
      assert before[..i] == steps[..i] && before[i] == steps[i];
      forall k | i < k < |steps| ensures !(Interrupts(steps[k]) && Effective(After(first, steps[..k]), steps[k])) {
        assert k < last ==> before[..k] == steps[..k] && before[k] == steps[k];
      }
    }
  }

  /** The AI closes a session only if it began to close it at least 30 minutes earlier and, since its
      latest beginning, the customer has not replied and no human has taken over; the demand is resolved
      and nothing is pending. */
  lemma AiCloseHasWaited(first: Snapshot, steps: seq<Step>, at: int) returns (i: nat, began: int)
    requires Sound(first) && first.status != Closing && Evolve(After(first, steps), FinishAiClosing(at)).Ok?
    ensures began + AI_CLOSING_WAIT_MS <= at
    ensures ClosingSince(first, steps, i, began)
    ensures After(first, steps).resolved && After(first, steps).pendingActions == []
  {
    hide After, ClosingSince;
    RunKeeps(first, steps);
    i := ClosingHasBegun(first, steps);
    began := After(first, steps).aiClosingStartedAt.value;
  }

  lemma UnresolvedStep(s: Snapshot, step: Step)
    requires !step.DemandResolved? && (!s.resolved || (step.CustomerWrote? && s.status != Closed))
    ensures !Take(s, step).resolved
  {
    hide RequireNonEmpty, RequireIfGiven;
  }

  lemma {:induction false} StaysUnresolved(first: Snapshot, steps: seq<Step>, n: nat)
    requires n < |steps| && steps[n] == CustomerWrote && After(first, steps[..n]).status != Closed
    requires forall k | n < k < |steps| :: !steps[k].DemandResolved?
    ensures !After(first, steps).resolved
    decreases |steps|
  {
    hide Take;
    var before := steps[..|steps| - 1];
    if n < |before| {
      assert before[..n] == steps[..n];
      StaysUnresolved(first, before, n);
    }
    UnresolvedStep(After(first, before), steps[|steps| - 1]);
  }

  /** After a message of the customer the AI can neither begin nor finish a closing before it has resolved
      the demand again. */
  lemma MessageStopsClosing(first: Snapshot, steps: seq<Step>, n: nat, at: int)
    requires Sound(first) && n < |steps| && steps[n] == CustomerWrote && After(first, steps[..n]).status != Closed
    requires forall k | n < k < |steps| :: !steps[k].DemandResolved?
    ensures Evolve(After(first, steps), BeginAiClosing(at)).Err?
    ensures Evolve(After(first, steps), FinishAiClosing(at)).Err?
  {
    hide After;
    StaysUnresolved(first, steps, n);
    RunKeeps(first, steps);
  }

  // ----- human control -----

  /** From step `n` on no return to the AI was accepted. */
  predicate NotReturned(first: Snapshot, steps: seq<Step>, n: nat) {
    forall k | n <= k < |steps| ::
      steps[k] == Issue(ReturnToAi) ==> !Effective(After(first, steps[..k]), steps[k])
  }

  lemma HumanStep(s: Snapshot, step: Step)
    requires s.control == Human && (step == Issue(ReturnToAi) ==> !Effective(s, step))
    ensures Take(s, step).control == Human
  {
    hide Trim;
  }

  /** Once a human has control, the AI may not write to the customer until the session is returned to it. */
  lemma {:induction false} HumanKeepsControl(first: Snapshot, steps: seq<Step>, n: nat)
    requires n <= |steps| && After(first, steps[..n]).control == Human && NotReturned(first, steps, n)
    ensures After(first, steps).control == Human
    ensures Dispatch(After(first, steps)) == Err(Forbidden)
    decreases |steps|
  {
    hide Take, Effective;
    if n == |steps| {
      assert steps[..n] == steps;
    } else {
      var before := steps[..|steps| - 1];
      assert before[..n] == steps[..n];
      forall k | n <= k < |before| ensures before[k] == Issue(ReturnToAi) ==> !Effective(After(first, before[..k]), before[k]) {
        assert before[..k] == steps[..k] && before[k] == steps[k];
      }
      HumanKeepsControl(first, before, n);
      HumanStep(After(first, before), steps[|steps| - 1]);
    }
  }
}

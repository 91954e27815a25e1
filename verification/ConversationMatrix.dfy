/** The conversation's transition matrix: the bot's steps, the hand-over to humans and the way back. */
module ConversationMatrix {
  import opened Prelude

  datatype State = BotActive | WaitingForCustomer | SentToHuman | HumanActive | Closed

  datatype FlowStep =
    | MainMenu | CommercialMenu | DataCollection | SummaryConfirmation | SendPending | FollowUpMenu | HumanService
    | Finished

  datatype RequestStatus = NotStarted | Collecting | Awaiting | UnderReview | Approved | Rejected | Cancelled

  datatype Department = ClientCompany | Commercial | Internal(code: nat)

  datatype Snapshot = Snapshot(department: Department, state: State, flowStep: FlowStep, requestStatus: RequestStatus,
                               resumeState: Option<State>, resumeFlowStep: Option<FlowStep>)

  datatype Name =
    | PresentMainMenu | SelectCommercial | StartDepartmentContact | StartQuote | NewQuoteRequest | StartAssistedQuote
    | PresentQuoteSummary | CorrectQuote | ConfirmQuote | ProposalDeliveryConfirmed | ProposalResponseReceived
    | ReturnToMainMenu | TakeOver | RequestTransfer | AcceptTransfer | ReturnToBot | Forward | ChangeDepartment
    | MarkRead | Archive | Unarchive | Close | CloseAfterRejection | ResumeAwaitedReply | ResumeContextualContact
    | ReopenAfterCustomerMessage

  datatype Transition = Transition(name: Name, target: Option<Department>, option: Option<string>,
                                   preventCloseWithApprovedQuote: bool)

  predicate FollowedUp(status: RequestStatus) {
    status in {Awaiting, UnderReview, Approved, Rejected}
  }

  /** The step at which the bot goes on after a human has had the conversation. */
  function ResolveBotFlowStep(s: Snapshot): FlowStep {
    if FollowedUp(s.requestStatus) then FollowUpMenu
    else
      var candidate := if s.resumeFlowStep.Some? then s.resumeFlowStep.value else s.flowStep;
      if candidate !in {SendPending, HumanService, Finished} then candidate
      else match s.requestStatus
        case Collecting => DataCollection
        case Awaiting => SummaryConfirmation
        case NotStarted => MainMenu
        case Cancelled => MainMenu
        case _ => FollowUpMenu
  }

  function NewQuote(): Snapshot {
    Snapshot(Commercial, BotActive, DataCollection, Collecting, None, None)
  }

  /** The target is given and not the customer's own company. */
  predicate InternalTarget(t: Transition) {
    t.target.Some? && t.target.value != ClientCompany
  }

  predicate DepartmentOption(option: Option<string>) {
    option.Some? &&
    ((|option.value| == 1 && '2' <= option.value[0] <= '9') || option.value == "commercial-continuous-director")
  }

  /** What a transition asks of the conversation and of its own arguments. */
  predicate Allowed(s: Snapshot, t: Transition) {
    match t.name
    case PresentMainMenu => s.state == BotActive && s.flowStep == MainMenu
    case SelectCommercial => s.state == BotActive && s.flowStep == MainMenu
    case StartDepartmentContact =>
      s.state == BotActive && s.flowStep in {MainMenu, CommercialMenu} && InternalTarget(t) && DepartmentOption(t.option)
    case StartQuote =>
      s.state == BotActive && s.flowStep in {CommercialMenu, MainMenu} && s.department == Commercial &&
      s.requestStatus == NotStarted
    case NewQuoteRequest => s.state == BotActive
    case StartAssistedQuote => s.state in {SentToHuman, HumanActive, WaitingForCustomer}
    case PresentQuoteSummary => s.state == BotActive && s.flowStep == DataCollection && s.requestStatus == Collecting
    case CorrectQuote =>
      s.state in {WaitingForCustomer, BotActive} && s.flowStep == SummaryConfirmation && s.requestStatus == Awaiting
    case ConfirmQuote =>
      s.state in {WaitingForCustomer, BotActive} && s.flowStep == SummaryConfirmation && s.requestStatus == Awaiting
    case ProposalDeliveryConfirmed =>
      s.state in {BotActive, SentToHuman, HumanActive} && s.department == Commercial && s.flowStep == SendPending &&
      s.requestStatus == UnderReview
    case ProposalResponseReceived =>
      s.state == WaitingForCustomer && s.department == Commercial && s.flowStep == SendPending &&
      s.requestStatus == Awaiting
    case ReturnToMainMenu => s.state == BotActive
    case TakeOver => true
    case RequestTransfer => s.state == HumanActive && InternalTarget(t) && t.target.value != s.department
    case AcceptTransfer => s.state == HumanActive && InternalTarget(t)
    case ReturnToBot => s.state == HumanActive
    case Forward => s.state != Closed && InternalTarget(t)
    case ChangeDepartment => s.state != Closed && InternalTarget(t)
    case MarkRead => s.state != Closed
    case Archive => true
    case Unarchive => true
    case Close => s.state != Closed && !(t.preventCloseWithApprovedQuote && s.requestStatus == Approved)
    case CloseAfterRejection => s.state != Closed && s.requestStatus == Rejected
    case ResumeAwaitedReply =>
      s.state == WaitingForCustomer && s.flowStep == SummaryConfirmation && s.requestStatus == Awaiting &&
      s.resumeState == Some(BotActive)
    case ResumeContextualContact =>
      && ((s.state == SentToHuman && s.flowStep == SendPending) ||
          (s.state == BotActive && s.flowStep in {SendPending, FollowUpMenu}))
      && FollowedUp(s.requestStatus)
    case ReopenAfterCustomerMessage => s.state == Closed && s.flowStep == Finished
  }

  function Moved(s: Snapshot, state: State, flowStep: FlowStep, resume: Option<FlowStep>): Snapshot {
    s.(state := state, flowStep := flowStep, resumeState := None, resumeFlowStep := resume)
  }

  /** `resolveConversationTransition`. */
  function Resolve(s: Snapshot, t: Transition): Result<Snapshot> {
    if !Allowed(s, t) then Err(ValidationError)
    else
      Ok(match t.name
         case PresentMainMenu => s.(resumeState := None, resumeFlowStep := None)
         case SelectCommercial =>
           Moved(s, BotActive, if s.requestStatus == NotStarted then CommercialMenu else FollowUpMenu, None)
             .(department := Commercial)
         case StartDepartmentContact => Moved(s, BotActive, MainMenu, None).(department := t.target.value)
         case StartQuote => NewQuote()
         case NewQuoteRequest => NewQuote()
         case StartAssistedQuote => NewQuote()
         case PresentQuoteSummary =>
           s.(state := WaitingForCustomer, flowStep := SummaryConfirmation, requestStatus := Awaiting,
              resumeState := Some(BotActive), resumeFlowStep := Some(SummaryConfirmation))
         case CorrectQuote => Moved(s, BotActive, DataCollection, None).(requestStatus := Collecting)
         case ConfirmQuote => Moved(s, SentToHuman, HumanService, Some(FollowUpMenu)).(requestStatus := UnderReview)
         case ProposalDeliveryConfirmed =>
           Moved(s, WaitingForCustomer, SendPending, None).(requestStatus := Awaiting)
         case ProposalResponseReceived => Moved(s, SentToHuman, HumanService, Some(FollowUpMenu))
         case ReturnToMainMenu => Moved(s, BotActive, MainMenu, None)
         case TakeOver => Moved(s, HumanActive, HumanService, Some(ResolveBotFlowStep(s)))
         case RequestTransfer => s
         case AcceptTransfer =>
           Moved(s, HumanActive, HumanService, Some(ResolveBotFlowStep(s))).(department := t.target.value)
         case ReturnToBot => Moved(s, BotActive, ResolveBotFlowStep(s), None)
         case Forward =>
           Moved(s, SentToHuman, HumanService, Some(ResolveBotFlowStep(s))).(department := t.target.value)
         case ChangeDepartment => s.(department := t.target.value)
         case MarkRead => s
         case Archive => s
         case Unarchive => s
         case Close => Moved(s, Closed, Finished, None)
         case CloseAfterRejection => Moved(s, Closed, Finished, None)
         case ResumeAwaitedReply => Moved(s, BotActive, s.flowStep, None)
         case ResumeContextualContact => Moved(s, BotActive, FollowUpMenu, None).(department := Commercial)
         case ReopenAfterCustomerMessage => Moved(s, BotActive, MainMenu, None).(department := Commercial))
  }

  // ----- runs -----

  /** Who controls the service session whose projection a conversation is. */
  datatype SessionControl = NoSession | HumanSession(responsible: bool) | AiSession(waiting: bool)

  /** A transition, or what the repository writes to a conversation itself: a proposal is prepared, a delivery
      is announced from the follow-up menu, the request's status is decided elsewhere; a human writes from
      outside, the session is closed by the AI or a paused one is resumed instead, or the conversation is
      brought in line with its session. */
  datatype Step =
    | Move(t: Transition)
    | ProposalPrepared
    | DeliveryAnnounced
    | StatusDecided(status: RequestStatus)
    | ExternalTakeover
    | SessionClosed
    | SessionResumed(control: SessionControl, department: Option<Department>)
    | Synchronized(control: SessionControl, department: Option<Department>, reassigned: bool)

  function TakeMove(s: Snapshot, t: Transition): Snapshot {
    match Resolve(s, t) case Err(_) => s case Ok(next) => next
  }

  function Or<T>(given: Option<T>, otherwise: T): T {
    if given.Some? then given.value else otherwise
  }

  /** The AI closes sessions, and so resumes others, only while the bot has the conversation. */
  predicate WithBot(s: Snapshot) {
    s.state in {BotActive, WaitingForCustomer} && s.flowStep != HumanService
  }

  /** A session that was paused takes over the conversation. */
  function Resumed(s: Snapshot, control: SessionControl, department: Option<Department>): Snapshot {
    var there := s.(department := Or(department, s.department));
    match control
    case HumanSession(responsible) =>
      there.(state := if responsible then HumanActive else SentToHuman, flowStep := HumanService)
    case _ => Moved(there, if control == AiSession(true) then WaitingForCustomer else BotActive, KeptStep(s), None)
  }

  function KeptStep(s: Snapshot): FlowStep {
    if s.resumeFlowStep.Some? && s.resumeFlowStep.value !in {HumanService, Finished} then s.resumeFlowStep.value
    else if s.flowStep != Finished then s.flowStep
    else MainMenu
  }

  /** The transition by which a conversation follows its session, if it has to; `Err` if it is refused. */
  function Followed(s: Snapshot, control: SessionControl, department: Option<Department>): Result<Snapshot> {
    match control
    case NoSession => if s.state != Closed then Resolve(s, Transition(Close, None, None, false)) else Ok(s)
    case HumanSession(responsible) =>
      Resolve(s, Transition(if responsible then TakeOver else Forward, Some(Or(department, s.department)), None, false))
    case AiSession(_) =>
      if s.state in {HumanActive, SentToHuman, Closed} then
        Resolve(s.(state := HumanActive), Transition(ReturnToBot, None, None, false))
      else Ok(s)
  }

  /** A conversation is written only if something differs, and then without a state to resume. */
  function InLine(s: Snapshot, control: SessionControl, department: Option<Department>, reassigned: bool): Snapshot {
    match Followed(s, control, department)
    case Err(_) => s
    case Ok(next) =>
      var target := next.(department := Or(department, s.department));
      if target.(resumeState := s.resumeState) == s && !reassigned then s else target.(resumeState := None)
  }

  /** One step; a refused transition changes nothing. */
  function Take(s: Snapshot, step: Step): Snapshot {
    match step
    case Move(t) => TakeMove(s, t)
    case ProposalPrepared =>
      Moved(s, HumanActive, SendPending, Some(FollowUpMenu)).(requestStatus := UnderReview)
    case DeliveryAnnounced =>
      if s.department == Commercial && s.state == BotActive && s.flowStep == FollowUpMenu &&
         s.requestStatus == UnderReview then
        s.(flowStep := SendPending)
      else s
    case StatusDecided(status) => s.(requestStatus := status)
    case ExternalTakeover =>
      if s.state in {HumanActive, SentToHuman} then s else Moved(s, SentToHuman, HumanService, None)
    case SessionClosed => if WithBot(s) then Moved(s, Closed, Finished, None) else s
    case SessionResumed(control, department) => if WithBot(s) then Resumed(s, control, department) else s
    case Synchronized(control, department, reassigned) => InLine(s, control, department, reassigned)
  }

  function After(first: Snapshot, steps: seq<Step>): Snapshot {
    if steps == [] then first else Take(After(first, steps[..|steps| - 1]), steps[|steps| - 1])
  }

  // ----- what every run keeps -----

  /** State and step fit together as far as every write leaves them: closed state and closed step go
      together, a human step means human control and human control a human step or a proposal, and
      nothing but a step of the bot is kept for the way back. */
  predicate Aligned(s: Snapshot) {
    && (s.state == Closed <==> s.flowStep == Finished)
    && (s.state in {SentToHuman, HumanActive} ==> s.flowStep in {HumanService, SendPending})
    && (s.flowStep == HumanService ==> s.state in {SentToHuman, HumanActive})
    && (s.resumeFlowStep.Some? ==> s.resumeFlowStep.value !in {SendPending, HumanService, Finished})
  }

  /** Moreover, the customer is waited for only at a summary or a proposal, and what is kept for the way back
      is kept exactly under human control and at a summary. */
  predicate Sound(s: Snapshot) {
    && Aligned(s)
    && (s.state in {SentToHuman, HumanActive} ==> s.resumeFlowStep.Some?)
    && (s.state == WaitingForCustomer ==>
          && s.flowStep in {SummaryConfirmation, SendPending}
          && s.resumeFlowStep == if s.flowStep == SummaryConfirmation then Some(SummaryConfirmation) else None)
    && (s.state in {BotActive, Closed} ==> s.resumeFlowStep.None?)
    && (s.resumeState == if s.state == WaitingForCustomer && s.flowStep == SummaryConfirmation then Some(BotActive) else None)
  }

  lemma ResolvedStepIsForBot(s: Snapshot)
    ensures ResolveBotFlowStep(s) !in {SendPending, HumanService, Finished}
  {
  }

  lemma MoveKeepsAligned(s: Snapshot, t: Transition)
    requires Aligned(s)
    ensures Aligned(TakeMove(s, t))
  {
    hide ResolveBotFlowStep, DepartmentOption, InternalTarget, FollowedUp;
    ResolvedStepIsForBot(s);
  }

  lemma InLineKeepsAligned(s: Snapshot, control: SessionControl, department: Option<Department>, reassigned: bool)
    requires Aligned(s)
    ensures Aligned(InLine(s, control, department, reassigned))
  {
    hide ResolveBotFlowStep, DepartmentOption, InternalTarget, FollowedUp;
    ResolvedStepIsForBot(s);
    ResolvedStepIsForBot(s.(state := HumanActive));
  }

  lemma TakeKeepsAligned(s: Snapshot, step: Step)
    requires Aligned(s)
    ensures Aligned(Take(s, step))
  {
    hide TakeMove, InLine;
    if step.Move? {
      MoveKeepsAligned(s, step.t);
    } else if step.Synchronized? {
      InLineKeepsAligned(s, step.control, step.department, step.reassigned);
    }
  }

  /** Every run keeps it, whatever is written beside the matrix: in particular the bot is never active at a
      human or closed step. */
  lemma {:induction false} EveryWriteKeeps(first: Snapshot, steps: seq<Step>)
    requires Aligned(first)
    ensures Aligned(After(first, steps))
  {
    if steps != [] {
      hide Take, Aligned;
      EveryWriteKeeps(first, steps[..|steps| - 1]);
      TakeKeepsAligned(After(first, steps[..|steps| - 1]), steps[|steps| - 1]);
    }
  }

  /** The writes that follow the service session instead of the matrix. */
  predicate FollowsSession(step: Step) {
    step.ExternalTakeover? || step.SessionClosed? || step.SessionResumed? || step.Synchronized?
  }

  lemma MoveKeeps(s: Snapshot, t: Transition)
    requires Sound(s)
    ensures Sound(TakeMove(s, t))
  {
    hide ResolveBotFlowStep, DepartmentOption, InternalTarget, FollowedUp;
    ResolvedStepIsForBot(s);
  }

  lemma TakeKeeps(s: Snapshot, step: Step)
    requires Sound(s) && !FollowsSession(step)
    ensures Sound(Take(s, step))
  {
    hide TakeMove;
    if step.Move? {
      MoveKeeps(s, step.t);
    }
  }

  predicate AlongMatrix(steps: seq<Step>) {
    forall k | 0 <= k < |steps| :: !FollowsSession(steps[k])
  }

  /** Every run along the matrix keeps a conversation sound. */
  lemma {:induction false} RunKeeps(first: Snapshot, steps: seq<Step>)
    requires Sound(first) && AlongMatrix(steps)
    ensures Sound(After(first, steps))
  {
    if steps != [] {
      hide Take, Sound, FollowsSession;
      RunKeeps(first, steps[..|steps| - 1]);
      TakeKeeps(After(first, steps[..|steps| - 1]), steps[|steps| - 1]);
    }
  }

  /** The step leaves a sound conversation sound. */
  predicate LeavesSound(s: Snapshot, step: Step) {
    match step
    case ExternalTakeover => s.state in {HumanActive, SentToHuman}
    case SessionResumed(control, _) =>
      WithBot(s) ==> !control.HumanSession? && (control == AiSession(true) ==> s.flowStep == SendPending)
    case Synchronized(control, department, reassigned) =>
      control.AiSession? && s.resumeState.Some? ==> Or(department, s.department) == s.department && !reassigned
    case _ => true
  }

  /** A write that follows the session leaves a sound conversation sound exactly in these cases: not if a human
      takes over from outside, if a human or waiting session is resumed away from a proposal, or if a
      conversation that waits at a summary changes its department or its user. */
  lemma SessionWriteExactly(s: Snapshot, step: Step)
    requires Sound(s) && FollowsSession(step)
    ensures Sound(Take(s, step)) <==> LeavesSound(s, step)
  {
    hide InLine, Resumed;
    if step.Synchronized? {
      InLineExactly(s, step.control, step.department, step.reassigned);
    } else if step.SessionResumed? && WithBot(s) {
      ResumedExactly(s, step.control, step.department);
    }
  }

  lemma InLineExactly(s: Snapshot, control: SessionControl, department: Option<Department>, reassigned: bool)
    requires Sound(s)
    ensures Sound(InLine(s, control, department, reassigned)) <==>
            LeavesSound(s, Synchronized(control, department, reassigned))
  {
    hide ResolveBotFlowStep, DepartmentOption, FollowedUp;
    ResolvedStepIsForBot(s);
    ResolvedStepIsForBot(s.(state := HumanActive));
  }

  lemma ResumedExactly(s: Snapshot, control: SessionControl, department: Option<Department>)
    requires Sound(s) && WithBot(s)
    ensures Sound(Resumed(s, control, department)) <==> LeavesSound(s, SessionResumed(control, department))
  {
  }

  /** The request moves only from collecting to awaiting, from there under review and back to awaiting, or to
      a new or corrected collection; and no transition makes the customer's own company responsible. */
  lemma RequestMovesAlong(s: Snapshot, t: Transition)
    requires Resolve(s, t).Ok?
    ensures var n := Resolve(s, t).value;
            && (n.department == ClientCompany ==> s.department == ClientCompany)
            && (n.requestStatus != s.requestStatus ==>
                  || (n.requestStatus == Collecting &&
                      t.name in {StartQuote, NewQuoteRequest, StartAssistedQuote, CorrectQuote})
                  || (s.requestStatus == Collecting && n.requestStatus == Awaiting && t.name == PresentQuoteSummary)
                  || (s.requestStatus == Awaiting && n.requestStatus == UnderReview && t.name == ConfirmQuote)
                  || (s.requestStatus == UnderReview && n.requestStatus == Awaiting &&
                      t.name == ProposalDeliveryConfirmed))
            && (t.name == CorrectQuote ==> s.requestStatus == Awaiting)
            && (t.name == StartQuote ==> s.requestStatus == NotStarted)
  {
    hide DepartmentOption, ResolveBotFlowStep;
  }

  // ----- hand-over and return -----

  predicate HandsOver(step: Step) {
    step.Move? && step.t.name in {TakeOver, Forward}
  }

  /** What may happen while humans have the conversation. */
  predicate KeepsHanded(step: Step) {
    step.Move? && step.t.name in {TakeOver, Forward, RequestTransfer, AcceptTransfer, ChangeDepartment, MarkRead, Archive,
                                  Unarchive}
  }

  predicate Effective(s: Snapshot, step: Step) {
    step.Move? ==> Allowed(s, step.t)
  }

  /** Humans have the conversation, and the way back leads to this step. */
  predicate Handed(s: Snapshot, back: FlowStep, status: RequestStatus) {
    s.state in {SentToHuman, HumanActive} && s.resumeFlowStep == Some(back) && s.requestStatus == status
  }

  lemma HandedStays(s: Snapshot, step: Step, back: FlowStep, status: RequestStatus)
    requires KeepsHanded(step) && Handed(s, back, status)
    requires if FollowedUp(status) then back == FollowUpMenu else back !in {SendPending, HumanService, Finished}
    ensures Handed(Take(s, step), back, status)
  {
  }

  lemma {:induction false} StaysHanded(s: Snapshot, steps: seq<Step>)
    requires steps != [] && HandsOver(steps[0]) && Effective(s, steps[0])
    requires forall k | 0 < k < |steps| :: KeepsHanded(steps[k])
    ensures Handed(After(s, steps), ResolveBotFlowStep(s), s.requestStatus)
  {
    var last := |steps| - 1;
    if last == 0 {
      assert steps[..0] == [];
    } else {
      hide Take, ResolveBotFlowStep, Handed;
      StaysHanded(s, steps[..last]);
      BackIsStable(s);
      HandedStays(After(s, steps[..last]), steps[last], ResolveBotFlowStep(s), s.requestStatus);
    }
  }

  lemma BackIsStable(s: Snapshot)
    ensures if FollowedUp(s.requestStatus) then ResolveBotFlowStep(s) == FollowUpMenu
            else ResolveBotFlowStep(s) !in {SendPending, HumanService, Finished}
  {
  }

  /** After a hand-over, whatever series of take-overs, forwards, transfers, changes of department, readings
      and archivings follows, the return to the bot leads to the step that was resolved at the first
      hand-over, with the request as it was. */
  lemma ReturnRestores(s: Snapshot, steps: seq<Step>, back: Transition)
    requires steps != [] && HandsOver(steps[0]) && Effective(s, steps[0])
    requires forall k | 0 < k < |steps| :: KeepsHanded(steps[k])
    requires back.name == ReturnToBot && Allowed(After(s, steps), back)
    ensures var r := Resolve(After(s, steps), back).value;
            r.state == BotActive && r.flowStep == ResolveBotFlowStep(s) && r.requestStatus == s.requestStatus
  {
    hide After;
    StaysHanded(s, steps);
    BackIsStable(s);
  }

  /** The bot's own step, at which it is active or waits for the customer, comes back exactly if it is the
      follow-up menu for a request that is followed up, and for any other request if it is not a proposal
      waiting to be sent. */
  lemma OwnStepComesBack(s: Snapshot, take: Transition, back: Transition)
    requires Sound(s) && s.state in {BotActive, WaitingForCustomer}
    requires take.name == TakeOver && back.name == ReturnToBot
    ensures var r := After(s, [Move(take), Move(back)]);
            && r.state == BotActive
            && (r.flowStep == s.flowStep <==>
                if FollowedUp(s.requestStatus) then s.flowStep == FollowUpMenu else s.flowStep != SendPending)
  {
    assert [Move(take), Move(back)][..1] == [Move(take)] && [Move(take)][..0] == [];
    assert After(s, [Move(take)]) == Take(s, Move(take));
  }

  function Plain(name: Name): Step {
    Move(Transition(name, None, None, false))
  }

  /** A summary that awaits its confirmation is not restored: after a take-over and the return to the bot it
      can no longer be confirmed or corrected. */
  lemma SummaryIsLost(s: Snapshot, confirm: Transition)
    requires Sound(s) && s.flowStep == SummaryConfirmation && s.requestStatus == Awaiting
    requires confirm.name in {ConfirmQuote, CorrectQuote}
    ensures Allowed(s, confirm)
    ensures var r := After(s, [Plain(TakeOver), Plain(ReturnToBot)]);
            r.state == BotActive && r.flowStep == FollowUpMenu && !Allowed(r, confirm)
  {
    hide DepartmentOption, InternalTarget;
    assert [Plain(TakeOver), Plain(ReturnToBot)][..1] == [Plain(TakeOver)] && [Plain(TakeOver)][..0] == [];
    assert After(s, [Plain(TakeOver)]) == Take(s, Plain(TakeOver));
  }

  // ----- confirmations -----

  /** Steps under which a presented summary stays what it is. */
  predicate KeepsSummary(step: Step) {
    step.Move? && step.t.name in {ChangeDepartment, MarkRead, Archive, Unarchive, ResumeAwaitedReply}
  }

  /** The summary that the conversation is at was presented at step `i`, and still stands. */
  ghost predicate PresentedAt(first: Snapshot, steps: seq<Step>, i: nat) {
    && i < |steps| && steps[i].Move? && steps[i].t.name == PresentQuoteSummary
    && Effective(After(first, steps[..i]), steps[i])
    && forall k | i < k < |steps| :: Effective(After(first, steps[..k]), steps[k]) ==> KeepsSummary(steps[k])
  }

  /** A summary is a step of a request that awaits its confirmation, and is never a step to come back to. */
  predicate Paired(s: Snapshot) {
    && (s.flowStep == SummaryConfirmation ==> s.requestStatus == Awaiting)
    && (s.resumeFlowStep == Some(SummaryConfirmation) ==> s.flowStep == SummaryConfirmation)
  }

  lemma MoveKeepsPaired(s: Snapshot, t: Transition)
    requires Sound(s) && Paired(s)
    ensures Paired(Take(s, Move(t)))
    ensures Take(s, Move(t)).flowStep == SummaryConfirmation && Allowed(s, t) && t.name != PresentQuoteSummary ==>
              s.flowStep == SummaryConfirmation && KeepsSummary(Move(t))
  {
    hide DepartmentOption, InternalTarget;
  }

  predicate OnlyMoves(steps: seq<Step>) {
    forall k | 0 <= k < |steps| :: steps[k].Move?
  }

  lemma {:induction false} MovesKeepPaired(first: Snapshot, steps: seq<Step>)
    requires Sound(first) && Paired(first) && OnlyMoves(steps)
    ensures Paired(After(first, steps))
  {
    if steps != [] {
      hide Take, Sound, Paired;
      MovesKeepPaired(first, steps[..|steps| - 1]);
      RunKeeps(first, steps[..|steps| - 1]);
      MoveKeepsPaired(After(first, steps[..|steps| - 1]), steps[|steps| - 1].t);
    }
  }

  lemma {:induction false} SummaryWasPresented(first: Snapshot, steps: seq<Step>) returns (i: nat)
    requires Sound(first) && Paired(first) && first.flowStep != SummaryConfirmation && OnlyMoves(steps)
    requires After(first, steps).flowStep == SummaryConfirmation
    ensures PresentedAt(first, steps, i)
  {
    hide Take, Allowed, KeepsSummary, Sound, Paired;
    var last := |steps| - 1;
    var before, step := steps[..last], steps[last];
    RunKeeps(first, before);
    MovesKeepPaired(first, before);
    MoveKeepsPaired(After(first, before), step.t);
    if Allowed(After(first, before), step.t) && step.t.name == PresentQuoteSummary {
      i := last;
    } else {
      RefusedStays(After(first, before), step.t);
      i := SummaryWasPresented(first, before);
      assert before[..i] == steps[..i] && before[i] == steps[i];
      forall k | i < k < |steps| && Effective(After(first, steps[..k]), steps[k]) ensures KeepsSummary(steps[k]) {
        assert k < last ==> before[..k] == steps[..k] && before[k] == steps[k];
      }
    }
  }

  lemma RefusedStays(s: Snapshot, t: Transition)
    ensures !Allowed(s, t) ==> Take(s, Move(t)) == s
  {
  }

  /** Along the matrix a quote is confirmed only if its summary was presented and, since then, nothing but
      readings, archivings, changes of department and the resumption of the awaited reply has happened. */
  lemma ConfirmedWasPresented(first: Snapshot, steps: seq<Step>, confirm: Transition) returns (i: nat)
    requires Sound(first) && Paired(first) && first.flowStep != SummaryConfirmation && OnlyMoves(steps)
    requires confirm.name == ConfirmQuote && Allowed(After(first, steps), confirm)
    ensures PresentedAt(first, steps, i)
  {
    hide After, PresentedAt, Sound, Paired;
    i := SummaryWasPresented(first, steps);
  }
}

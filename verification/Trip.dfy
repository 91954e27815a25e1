/** The versioned trip aggregate: drafts, commands, and what every run of commands keeps. */
module Trip {
  import opened Prelude
  import opened Sorting
  import opened Text
  import opened TripPlan

  datatype Status = Draft | Scheduled | InExecution | Suspended | Interrupted | EarlyTerminated | Completed | Cancelled

  datatype Source =
    | ConfirmedService(confirmedServiceId: Text, sourceVersion: real)
    | ContinuousContract(contractId: Text, sourceVersion: real)

  datatype EvidenceKind = ManualNote | DocumentReference | ExternalReference

  datatype Evidence = Evidence(kind: EvidenceKind, description: Text, referenceId: Option<Text>)

  datatype Trip = Trip(id: Text, companyId: Text, code: Text, source: Source, status: Status, plan: Plan,
                       version: int, planVersion: int, scheduledAt: Option<int>, startedAt: Option<int>,
                       endedAt: Option<int>, createdByUserId: Text, createdAt: int, updatedAt: int)

  datatype Kind =
    | DraftCreated | EditDraft | Schedule | ReviseSchedule | Start | Suspend | Resume | Interrupt | CloseEarly
    | Complete | Cancel | RecordOccurrence | RecordDeviation

  type CommandKind = kind: Kind | kind != DraftCreated witness Start

  /** A command; of plan, reason and evidence only those that its kind has are looked at. `None` stands
      for an invalid date. */
  datatype Command = Command(kind: CommandKind, id: Text, actorUserId: Text, expectedVersion: real,
                             occurredAt: Option<int>, plan: Plan, reason: Text, evidence: seq<Evidence>)

  datatype Category = Operational | Suspension | Resumption | Interruption | Deviation

  datatype OperationalRecord = OperationalRecord(category: Category, tripId: Text, companyId: Text, commandId: Text,
                                                 actorUserId: Text, reason: Text, evidence: seq<Evidence>,
                                                 occurredAt: int, resultingVersion: int)

  datatype PlanVersion = PlanVersion(tripId: Text, companyId: Text, commandId: Text, createdByUserId: Text,
                                     version: int, aggregateVersion: int, plan: Plan, reason: Option<Text>,
                                     createdAt: int)

  datatype HistoryEntry = HistoryEntry(tripId: Text, companyId: Text, commandId: Text, actorUserId: Text,
                                       action: Kind, fromStatus: Option<Status>, toStatus: Status,
                                       reason: Option<Text>, expectedVersion: Option<real>, resultingVersion: int,
                                       occurredAt: int)

  datatype CommandResult = CommandResult(trip: Trip, history: HistoryEntry, planVersion: Option<PlanVersion>,
                                         record: Option<OperationalRecord>)

  datatype DraftInput = DraftInput(id: Text, companyId: Text, code: Text, source: Source, plan: Plan,
                                   actorUserId: Text, commandId: Text, createdAt: Option<int>)

  /** The transition matrix. */
  function Successors(status: Status): set<Status> {
    match status
    case Draft => {Scheduled}
    case Scheduled => {InExecution, Cancelled}
    case InExecution => {Suspended, Interrupted, Completed}
    case Suspended => {InExecution}
    case Interrupted => {EarlyTerminated}
    case _ => {}
  }

  // ----- drafts -----

  function NormalSource(source: Source): Option<Source> {
    if !IsWhole(source.sourceVersion) || source.sourceVersion < 1.0 then None
    else match source
      case ConfirmedService(id, version) =>
        (match RequiredText(id, 100) case None => None case Some(t) => Some(ConfirmedService(t, version)))
      case ContinuousContract(id, version) =>
        (match RequiredText(id, 100) case None => None case Some(t) => Some(ContinuousContract(t, version)))
  }

  function CreateDraft(input: DraftInput): Result<CommandResult> {
    var id, companyId, code := RequiredText(input.id, 100), RequiredText(input.companyId, 100), RequiredText(input.code, 80);
    var actor, command := RequiredText(input.actorUserId, 100), RequiredText(input.commandId, 100);
    var source, plan := NormalSource(input.source), NormalPlan(input.plan);
    if input.createdAt.None? || id.None? || companyId.None? || code.None? || source.None? || plan.Err? ||
       actor.None? || command.None? then
      Err(ValidationError)
    else
      var at := input.createdAt.value;
      Ok(CommandResult(
           Trip(id.value, companyId.value, code.value, source.value, Draft, plan.value, 1, 0, None, None, None,
                actor.value, at, at),
           HistoryEntry(id.value, companyId.value, command.value, actor.value, DraftCreated, None, Draft, None, None, 1, at),
           None, None))
  }

  // ----- commands -----

  /** The checks in front of every command: the time of the action if they pass. */
  function Context(trip: Trip, command: Command): Result<int> {
    if RequiredText(command.id, 100).None? || RequiredText(command.actorUserId, 100).None? then Err(ValidationError)
    else if !IsWhole(command.expectedVersion) || command.expectedVersion < 1.0 then Err(ValidationError)
    else if command.expectedVersion != trip.version as real then Err(Conflict)
    else if command.occurredAt.None? || command.occurredAt.value < trip.updatedAt then Err(ValidationError)
    else Ok(command.occurredAt.value)
  }

  function NormalReason(reason: Text): Option<Text> {
    RequiredText(reason, 1000)
  }

  function NormalEvidenceItem(item: Evidence): Option<Evidence> {
    var trimmed := if item.referenceId.Some? then Trim(item.referenceId.value) else [];
    var description := RequiredText(item.description, 1000);
    if (item.kind != ManualNote && trimmed == []) || description.None? then None
    else Some(Evidence(item.kind, description.value, if trimmed == [] then None else Some(trimmed)))
  }

  function NormalEvidence(evidence: seq<Evidence>): Option<seq<Evidence>> {
    if evidence == [] then Some([])
    else
      match (NormalEvidenceItem(evidence[0]), NormalEvidence(evidence[1..]))
      case (Some(item), Some(rest)) => Some([item] + rest)
      case _ => None
  }

  predicate Schedulable(plan: Plan) {
    plan.serviceDate.Some? && plan.legs != []
  }

  /** The status a command leads to, if it changes it. */
  function Target(kind: Kind): Option<Status> {
    match kind
    case Schedule => Some(Scheduled)
    case Start => Some(InExecution)
    case Suspend => Some(Suspended)
    case Resume => Some(InExecution)
    case Interrupt => Some(Interrupted)
    case CloseEarly => Some(EarlyTerminated)
    case Complete => Some(Completed)
    case Cancel => Some(Cancelled)
    case _ => None
  }

  predicate Underway(status: Status) {
    status == InExecution || status == Suspended || status == Interrupted
  }

  predicate Terminal(status: Status) {
    status == EarlyTerminated || status == Completed || status == Cancelled
  }

  /** What the trip must be like for a command of this kind. */
  predicate AllowedIn(trip: Trip, kind: Kind) {
    match kind
    case DraftCreated => false
    case EditDraft => trip.startedAt == None && trip.status == Draft
    case Schedule => trip.status == Draft && Schedulable(trip.plan)
    case ReviseSchedule => trip.status == Scheduled
    case RecordOccurrence => Underway(trip.status)
    case RecordDeviation => Underway(trip.status)
    case _ => Target(kind).value in Successors(trip.status)
  }

  predicate BringsPlan(kind: Kind) {
    kind == EditDraft || kind == ReviseSchedule
  }

  predicate BringsReason(kind: Kind) {
    kind !in {DraftCreated, EditDraft, Schedule, Start, Complete}
  }

  function CategoryOf(kind: Kind): Option<Category> {
    match kind
    case Suspend => Some(Suspension)
    case Resume => Some(Resumption)
    case Interrupt => Some(Interruption)
    case RecordOccurrence => Some(Operational)
    case RecordDeviation => Some(Deviation)
    case _ => None
  }

  predicate NeedsEvidence(kind: Kind) {
    kind in {Interrupt, RecordOccurrence, RecordDeviation}
  }

  lemma {:induction false} EvidenceKeepsLength(evidence: seq<Evidence>)
    ensures NormalEvidence(evidence).Some? ==> |NormalEvidence(evidence).value| == |evidence|
  {
    hide NormalEvidenceItem;
    if evidence != [] {
      EvidenceKeepsLength(evidence[1..]);
    }
  }

  /** What the command brings with it is acceptable. */
  predicate WellFormed(command: Command) {
    var kind := command.kind;
    && (BringsPlan(kind) ==> NormalPlan(command.plan).Ok?)
    && (kind == ReviseSchedule ==> Schedulable(command.plan))
    && (BringsReason(kind) ==> NormalReason(command.reason).Some?)
    && (CategoryOf(kind).Some? ==> NormalEvidence(command.evidence).Some?)
    && (NeedsEvidence(kind) ==> command.evidence != [])
  }

  /** These commands also keep a version of the plan. */
  predicate Snapshots(kind: Kind) {
    kind == Schedule || kind == ReviseSchedule
  }

  /** The trip after an accepted command. */
  function Next(trip: Trip, command: Command, at: int): Trip
    requires WellFormed(command)
  {
    var kind := command.kind;
    var status := if Target(kind).Some? then Target(kind).value else trip.status;
    trip.(status := status,
          plan := if BringsPlan(kind) then NormalPlan(command.plan).value else trip.plan,
          version := trip.version + 1,
          planVersion := trip.planVersion + if Snapshots(kind) then 1 else 0,
          scheduledAt := if kind == Schedule then Some(at) else trip.scheduledAt,
          startedAt := if kind == Start then Some(at) else trip.startedAt,
          endedAt := if Target(kind).Some? && Terminal(status) then Some(at) else trip.endedAt,
          updatedAt := at)
  }

  /** The outcome of a command: the next trip and the records of the step, or why it is refused. */
  function Outcome(trip: Trip, command: Command): Result<CommandResult> {
    match Context(trip, command)
    case Err(e) => Err(e)
    case Ok(at) =>
      var kind := command.kind;
      if !AllowedIn(trip, kind) || !WellFormed(command) then Err(ValidationError)
      else
        var next := Next(trip, command, at);
        var reason := if BringsReason(kind) then NormalReason(command.reason) else None;
        Ok(CommandResult(
             next,
             HistoryEntry(trip.id, trip.companyId, command.id, command.actorUserId, kind, Some(trip.status),
                          next.status, reason, Some(command.expectedVersion), next.version, at),
             if Snapshots(kind) then
               Some(PlanVersion(trip.id, trip.companyId, command.id, command.actorUserId, next.planVersion,
                                next.version, next.plan, reason, at))
             else None,
             if CategoryOf(kind).Some? then
               Some(OperationalRecord(CategoryOf(kind).value, trip.id, trip.companyId, command.id,
                                      command.actorUserId, reason.value, NormalEvidence(command.evidence).value, at,
                                      next.version))
             else None))
  }

  /** The reason and the record of a command that leaves one. */
  function Occurrence(trip: Trip, command: Command, category: Category, required: bool, at: int)
    : Option<(Option<Text>, Option<OperationalRecord>)>
  {
    match (NormalReason(command.reason), NormalEvidence(command.evidence))
    case (Some(reason), Some(evidence)) =>
      if required && evidence == [] then None
      else Some((Some(reason),
                 Some(OperationalRecord(category, trip.id, trip.companyId, command.id, command.actorUserId, reason,
                                        evidence, at, trip.version + 1))))
    case _ => None
  }

  /** `applyTripCommand`, branch by branch. */
  method ApplyTripCommand(current: Trip, command: Command) returns (r: Result<CommandResult>)
    ensures r == Outcome(current, command)
  {
    hide RequiredText, NormalPlan, IsWhole, Trim, Context, NormalEvidence, IsCivilDate;
    EvidenceKeepsLength(command.evidence);
    var context := Context(current, command);
    if context.Err? {
      return Err(context.error);
    }
    var occurredAt := context.value;
    var status, plan, planVersion := current.status, current.plan, current.planVersion;
    var scheduledAt, startedAt, endedAt := current.scheduledAt, current.startedAt, current.endedAt;
    var reason: Option<Text> := None;
    var record: Option<OperationalRecord> := None;
    var versionSnapshot: Option<PlanVersion> := None;
    var resultingVersion := current.version + 1;
    match command.kind {
      case EditDraft =>
        if current.startedAt.Some? || current.status != Draft {
          return Err(ValidationError);
        }
        var normal := NormalizePlan(command.plan);
        if normal.Err? {
          return Err(ValidationError);
        }
        plan := normal.value;
      case Schedule =>
        if Scheduled !in Successors(current.status) || !Schedulable(current.plan) {
          return Err(ValidationError);
        }
        status, scheduledAt, planVersion := Scheduled, Some(occurredAt), planVersion + 1;
      case ReviseSchedule =>
        if current.status != Scheduled {
          return Err(ValidationError);
        }
        reason := NormalReason(command.reason);
        if reason.None? {
          return Err(ValidationError);
        }
        var normal := NormalizePlan(command.plan);
        if normal.Err? {
          return Err(ValidationError);
        }
        plan := normal.value;
        NormalPlanKeepsSize(command.plan);
        if !Schedulable(plan) {
          return Err(ValidationError);
        }
        planVersion := planVersion + 1;
      case Start =>
        if InExecution !in Successors(current.status) {
          return Err(ValidationError);
        }
        status, startedAt := InExecution, Some(occurredAt);
      case Suspend =>
        var occurrence := Occurrence(current, command, Suspension, false, occurredAt);
        if Suspended !in Successors(current.status) || occurrence.None? {
          return Err(ValidationError);
        }
        status, reason, record := Suspended, occurrence.value.0, occurrence.value.1;
      case Resume =>
        var occurrence := Occurrence(current, command, Resumption, false, occurredAt);
        if InExecution !in Successors(current.status) || occurrence.None? {
          return Err(ValidationError);
        }
        status, reason, record := InExecution, occurrence.value.0, occurrence.value.1;
      case Interrupt =>
        var occurrence := Occurrence(current, command, Interruption, true, occurredAt);
        if Interrupted !in Successors(current.status) || occurrence.None? {
          return Err(ValidationError);
        }
        status, reason, record := Interrupted, occurrence.value.0, occurrence.value.1;
      case CloseEarly =>
        reason := NormalReason(command.reason);
        if EarlyTerminated !in Successors(current.status) || reason.None? {
          return Err(ValidationError);
        }
        status, endedAt := EarlyTerminated, Some(occurredAt);
      case Complete =>
        if Completed !in Successors(current.status) {
          return Err(ValidationError);
        }
        status, endedAt := Completed, Some(occurredAt);
      case Cancel =>
        reason := NormalReason(command.reason);
        if Cancelled !in Successors(current.status) || reason.None? {
          return Err(ValidationError);
        }
        status, endedAt := Cancelled, Some(occurredAt);
      case RecordOccurrence =>
        var occurrence := Occurrence(current, command, Operational, true, occurredAt);
        if !Underway(current.status) || occurrence.None? {
          return Err(ValidationError);
        }
        reason, record := occurrence.value.0, occurrence.value.1;
      case RecordDeviation =>
        var occurrence := Occurrence(current, command, Deviation, true, occurredAt);
        if !Underway(current.status) || occurrence.None? {
          return Err(ValidationError);
        }
        reason, record := occurrence.value.0, occurrence.value.1;
    }
    var trip := current.(status := status, plan := plan, version := resultingVersion, planVersion := planVersion,
                         scheduledAt := scheduledAt, startedAt := startedAt, endedAt := endedAt,
                         updatedAt := occurredAt);
    if command.kind == Schedule || command.kind == ReviseSchedule {
      versionSnapshot := Some(PlanVersion(trip.id, trip.companyId, command.id, command.actorUserId, trip.planVersion,
                                          trip.version, trip.plan, reason, occurredAt));
    }
    r := Ok(CommandResult(
              trip,
              HistoryEntry(trip.id, trip.companyId, command.id, command.actorUserId, command.kind,
                           Some(current.status), trip.status, reason, Some(command.expectedVersion),
                           resultingVersion, occurredAt),
              versionSnapshot, record));
  }

  lemma NormalPlanKeepsSize(plan: Plan)
    requires NormalPlan(plan).Ok?
    ensures Schedulable(NormalPlan(plan).value) == Schedulable(plan)
  {
    assert |NormalPlan(plan).value.legs| == |plan.legs|;
  }

  // ----- runs: a draft and the commands sent to it, of which some are refused -----

  datatype Accepted = Accepted(command: Command, result: CommandResult)

  datatype Journal = Journal(trip: Trip, accepted: seq<Accepted>)

  function Handle(journal: Journal, command: Command): Journal {
    match Outcome(journal.trip, command)
    case Err(_) => journal
    case Ok(result) => Journal(result.trip, journal.accepted + [Accepted(command, result)])
  }

  /** The journal after a run of commands, from the first trip on. */
  function After(first: Trip, commands: seq<Command>): Journal {
    if commands == [] then Journal(first, [])
    else Handle(After(first, commands[..|commands| - 1]), commands[|commands| - 1])
  }

  function CountSnapshots(accepted: seq<Accepted>): nat {
    if accepted == [] then 0
    else CountSnapshots(accepted[..|accepted| - 1]) + if Snapshots(accepted[|accepted| - 1].command.kind) then 1 else 0
  }

  /** The latest kept version of the plan. */
  function LatestSnapshot(accepted: seq<Accepted>): Option<PlanVersion> {
    if accepted == [] then None
    else
      var last := accepted[|accepted| - 1].result.planVersion;
      if last.Some? then last else LatestSnapshot(accepted[..|accepted| - 1])
  }

  /** The time of the latest start. */
  function LatestStart(accepted: seq<Accepted>): Option<int> {
    if accepted == [] then None
    else if accepted[|accepted| - 1].command.kind == Start then Some(accepted[|accepted| - 1].result.history.occurredAt)
    else LatestStart(accepted[..|accepted| - 1])
  }

  /** The version counts the accepted commands, and each of them named the version it met. */
  predicate Versioned(journal: Journal) {
    && journal.trip.version == 1 + |journal.accepted|
    && (forall i | 0 <= i < |journal.accepted| ::
          && journal.accepted[i].command.expectedVersion == (i + 1) as real
          && journal.accepted[i].result.history.resultingVersion == i + 2)
  }

  /** The entry goes on from where the one before it ended, along the matrix. */
  predicate Linked(accepted: seq<Accepted>, i: nat)
    requires i < |accepted|
  {
    var entry := accepted[i].result.history;
    && entry.fromStatus == Some(if i == 0 then Draft else accepted[i - 1].result.history.toStatus)
    && (entry.toStatus == entry.fromStatus.value || entry.toStatus in Successors(entry.fromStatus.value))
  }

  /** The history is one path through the transition matrix, from draft to the present status. */
  predicate Chained(journal: Journal) {
    && (forall i | 0 <= i < |journal.accepted| :: Linked(journal.accepted, i))
    && journal.trip.status ==
       if journal.accepted == [] then Draft else journal.accepted[|journal.accepted| - 1].result.history.toStatus
  }

  /** The plan is always in order; the plan versions count the snapshots; and outside draft the plan can be
      scheduled and is the one of the latest snapshot. */
  predicate Planned(journal: Journal) {
    var trip := journal.trip;
    && Ordered(trip.plan.legs)
    && trip.planVersion == CountSnapshots(journal.accepted)
    && (trip.planVersion == 0 <==> trip.status == Draft)
    && (trip.status != Draft ==>
          && Schedulable(trip.plan)
          && LatestSnapshot(journal.accepted).Some?
          && LatestSnapshot(journal.accepted).value.plan == trip.plan
          && LatestSnapshot(journal.accepted).value.version == trip.planVersion)
  }

  predicate NotAfter(a: Option<int>, b: Option<int>) {
    a.Some? && b.Some? ==> a.value <= b.value
  }

  /** The dates are in order, and each is set only in the statuses it belongs to. */
  predicate Dated(trip: Trip) {
    && NotAfter(trip.scheduledAt, trip.startedAt) && NotAfter(trip.startedAt, trip.endedAt)
    && NotAfter(trip.scheduledAt, trip.endedAt) && NotAfter(trip.endedAt, Some(trip.updatedAt))
    && NotAfter(trip.scheduledAt, Some(trip.updatedAt)) && NotAfter(trip.startedAt, Some(trip.updatedAt))
    && trip.createdAt <= trip.updatedAt && NotAfter(Some(trip.createdAt), trip.scheduledAt)
    && (trip.scheduledAt.Some? <==> trip.status != Draft)
    && (trip.endedAt.Some? <==> Terminal(trip.status))
    && (trip.startedAt.Some? ==> trip.status !in {Draft, Scheduled, Cancelled})
  }

  /** The start kept is the latest one accepted. */
  predicate Started(journal: Journal) {
    journal.trip.startedAt == LatestStart(journal.accepted)
  }

  lemma HandleKeepsVersions(journal: Journal, command: Command)
    requires Versioned(journal)
    ensures Versioned(Handle(journal, command))
  {
    hide RequiredText, NormalPlan, WellFormed, AllowedIn;
  }

  /** An accepted command keeps the status or follows the matrix. */
  lemma StepFollowsMatrix(trip: Trip, command: Command)
    requires Outcome(trip, command).Ok?
    ensures var r := Outcome(trip, command).value;
            && r.history.fromStatus == Some(trip.status) && r.history.toStatus == r.trip.status
            && (r.trip.status == trip.status || r.trip.status in Successors(trip.status))
  {
    hide Context, NormalPlan, WellFormed, Schedulable;
  }

  lemma HandleKeepsChain(journal: Journal, command: Command)
    requires Chained(journal)
    ensures Chained(Handle(journal, command))
  {
    hide Outcome, Successors;
    var next := Handle(journal, command);
    if next != journal {
      StepFollowsMatrix(journal.trip, command);
      var n := |journal.accepted|;
      assert next.accepted[n] == Accepted(command, Outcome(journal.trip, command).value);
      forall i | 0 <= i <= n ensures Linked(next.accepted, i) {
        if i < n {
          assert Linked(journal.accepted, i);
        }
      }
    }
  }

  /** What an accepted command does to the plan and its versions. */
  lemma StepPlans(trip: Trip, command: Command)
    requires Outcome(trip, command).Ok? && Ordered(trip.plan.legs)
    ensures var r := Outcome(trip, command).value;
            && Ordered(r.trip.plan.legs)
            && if Snapshots(command.kind) then
                 && Schedulable(r.trip.plan) && r.trip.status != Draft && r.trip.planVersion == trip.planVersion + 1
                 && r.planVersion.Some? && r.planVersion.value.plan == r.trip.plan
                 && r.planVersion.value.version == r.trip.planVersion
               else
                 && r.planVersion.None? && r.trip.planVersion == trip.planVersion
                 && (r.trip.status == Draft <==> trip.status == Draft)
                 && (trip.status != Draft ==> r.trip.plan == trip.plan)
  {
    hide RequiredText, NormalPlan, Ordered, Context, NormalEvidence;
    if BringsPlan(command.kind) {
      NormalPlanIsOrdered(command.plan);
      NormalPlanKeepsSize(command.plan);
    }
  }

  lemma HandleKeepsPlan(journal: Journal, command: Command)
    requires Planned(journal)
    ensures Planned(Handle(journal, command))
  {
    hide Outcome, Ordered, Schedulable, Snapshots;
    var next := Handle(journal, command);
    if next != journal {
      StepPlans(journal.trip, command);
      assert next.accepted[..|next.accepted| - 1] == journal.accepted;
    }
  }

  lemma HandleKeepsDates(journal: Journal, command: Command)
    requires Dated(journal.trip)
    ensures Dated(Handle(journal, command).trip)
  {
    hide RequiredText, NormalPlan, WellFormed, Schedulable;
  }

  lemma HandleKeepsStart(journal: Journal, command: Command)
    requires Started(journal)
    ensures Started(Handle(journal, command))
  {
    hide Context, NormalPlan, WellFormed, AllowedIn;
    var next := Handle(journal, command);
    if next != journal {
      assert next.accepted[..|next.accepted| - 1] == journal.accepted;
    }
  }

  /** What a trip is like that has just been created. */
  predicate IsDraft(trip: Trip) {
    && trip.status == Draft && trip.version == 1 && trip.planVersion == 0 && Ordered(trip.plan.legs)
    && trip.scheduledAt == None && trip.startedAt == None && trip.endedAt == None && trip.createdAt == trip.updatedAt
  }

  lemma CreatedIsDraft(draft: DraftInput)
    requires CreateDraft(draft).Ok?
    ensures IsDraft(CreateDraft(draft).value.trip)
  {
    hide RequiredText, NormalPlan, NormalSource, Ordered;
    NormalPlanIsOrdered(draft.plan);
  }

  lemma DraftKeeps(trip: Trip)
    requires IsDraft(trip)
    ensures var journal := Journal(trip, []);
            Versioned(journal) && Chained(journal) && Planned(journal) && Dated(trip) && Started(journal)
  {
    hide Ordered;
  }

  /** What every run keeps, whatever commands are sent. */
  lemma {:induction false} RunKeeps(first: Trip, commands: seq<Command>)
    requires IsDraft(first)
    ensures Versioned(After(first, commands)) && Chained(After(first, commands))
    ensures Planned(After(first, commands))
    ensures Dated(After(first, commands).trip) && Started(After(first, commands))
  {
    hide IsDraft, Handle, Versioned, Chained, Planned, Dated, Started;
    if commands == [] {
      DraftKeeps(first);
    } else {
      RunKeeps(first, commands[..|commands| - 1]);
      var before := After(first, commands[..|commands| - 1]);
      HandleKeepsVersions(before, commands[|commands| - 1]);
      HandleKeepsChain(before, commands[|commands| - 1]);
      HandleKeepsPlan(before, commands[|commands| - 1]);
      HandleKeepsDates(before, commands[|commands| - 1]);
      HandleKeepsStart(before, commands[|commands| - 1]);
    }
  }

  // ----- what follows for whole runs -----

  lemma HandleGoesOn(journal: Journal, command: Command)
    ensures journal.accepted <= Handle(journal, command).accepted
    ensures Terminal(journal.trip.status) ==> Outcome(journal.trip, command).Err?
    ensures journal.trip.status !in {Draft, Scheduled} ==>
              var next := Handle(journal, command).trip;
              next.status !in {Draft, Scheduled} && next.plan == journal.trip.plan &&
              next.planVersion == journal.trip.planVersion && next.scheduledAt == journal.trip.scheduledAt
    ensures Outcome(journal.trip, command).Ok? ==>
              Handle(journal, command).accepted == journal.accepted + [Accepted(command, Outcome(journal.trip, command).value)]
  {
    hide Context, NormalPlan, NormalEvidence, RequiredText;
  }

  /** A trip that has ended accepts nothing more, ever. */
  lemma {:induction false} EndedStays(first: Trip, commands: seq<Command>, n: nat)
    requires n <= |commands| && Terminal(After(first, commands[..n]).trip.status)
    ensures After(first, commands) == After(first, commands[..n])
    decreases |commands|
  {
    hide Outcome, Terminal;
    if n == |commands| {
      assert commands[..n] == commands;
    } else {
      var before := commands[..|commands| - 1];
      assert before[..n] == commands[..n];
      EndedStays(first, before, n);
      HandleGoesOn(After(first, before), commands[|commands| - 1]);
    }
  }

  /** Once the trip has left the planning statuses, its plan is never changed again. */
  lemma {:induction false} PlanIsFrozen(first: Trip, commands: seq<Command>, n: nat)
    requires n <= |commands|
    requires After(first, commands[..n]).trip.status !in {Draft, Scheduled}
    ensures After(first, commands).trip.status !in {Draft, Scheduled}
    ensures After(first, commands).trip.plan == After(first, commands[..n]).trip.plan
    ensures After(first, commands).trip.planVersion == After(first, commands[..n]).trip.planVersion
    ensures After(first, commands).trip.scheduledAt == After(first, commands[..n]).trip.scheduledAt
    decreases |commands|
  {
    hide Handle;
    if n == |commands| {
      assert commands[..n] == commands;
    } else {
      var before := commands[..|commands| - 1];
      assert before[..n] == commands[..n];
      PlanIsFrozen(first, before, n);
      HandleGoesOn(After(first, before), commands[|commands| - 1]);
    }
  }

  lemma {:induction false} AcceptedGrows(first: Trip, commands: seq<Command>, n: nat)
    requires n <= |commands|
    ensures After(first, commands[..n]).accepted <= After(first, commands).accepted
    decreases |commands|
  {
    hide Handle;
    if n == |commands| {
      assert commands[..n] == commands;
    } else {
      var before := commands[..|commands| - 1];
      assert before[..n] == commands[..n];
      AcceptedGrows(first, before, n);
      HandleGoesOn(After(first, before), commands[|commands| - 1]);
    }
  }

  /** Optimistic locking: of all the commands that name the same expected version at most one is ever
      accepted; once it is, every other gets a conflict, if nothing else is wrong with it. */
  lemma StaleIsRefused(first: Trip, commands: seq<Command>, n: nat, stale: Command)
    requires IsDraft(first) && n < |commands|
    requires Outcome(After(first, commands[..n]).trip, commands[n]).Ok?
    requires stale.expectedVersion <= commands[n].expectedVersion
    ensures Outcome(After(first, commands).trip, stale).Err?
    ensures RequiredText(stale.id, 100).Some? && RequiredText(stale.actorUserId, 100).Some? &&
            IsWhole(stale.expectedVersion) && stale.expectedVersion >= 1.0 ==>
              Outcome(After(first, commands).trip, stale) == Err(Conflict)
  {
    hide IsDraft, Handle, RequiredText, AllowedIn, WellFormed, After;
    var before, after := After(first, commands[..n]), After(first, commands[..n + 1]);
    OneMore(first, commands, n);
    HandleGoesOn(before, commands[n]);
    AcceptedGrows(first, commands, n + 1);
    RunKeeps(first, commands[..n]);
    RunKeeps(first, commands);
    VersionsAreReal(stale.expectedVersion, before.trip.version, After(first, commands).trip.version);
  }

  lemma VersionsAreReal(x: real, low: int, high: int)
    requires x <= low as real && low < high
    ensures x != high as real
  {
  }

  lemma OneMore(first: Trip, commands: seq<Command>, n: nat)
    requires n < |commands|
    ensures After(first, commands[..n + 1]) == Handle(After(first, commands[..n]), commands[n])
  {
    hide Handle;
    assert commands[..n + 1][..n] == commands[..n];
  }

  lemma {:induction false} StartsAreFound(accepted: seq<Accepted>)
    ensures LatestStart(accepted).Some? <==> exists i | 0 <= i < |accepted| :: accepted[i].command.kind == Start
  {
    if accepted != [] {
      StartsAreFound(accepted[..|accepted| - 1]);
      assert forall i | 0 <= i < |accepted| - 1 :: accepted[..|accepted| - 1][i] == accepted[i];
    }
  }

  /** The time of the start is set exactly if a start was ever accepted: being under way is not enough. */
  lemma StartedExactlyIfStarted(first: Trip, commands: seq<Command>)
    requires IsDraft(first)
    ensures After(first, commands).trip.startedAt.Some? <==>
            exists i | 0 <= i < |After(first, commands).accepted| :: After(first, commands).accepted[i].command.kind == Start
  {
    hide IsDraft, After, Versioned, Chained, Planned, Dated;
    RunKeeps(first, commands);
    StartsAreFound(After(first, commands).accepted);
  }

  // ----- when the start is what it seems -----

  /** The command starts a suspended trip that has a start, at another time. */
  predicate MovesStart(trip: Trip, command: Command) {
    && Outcome(trip, command).Ok? && command.kind == Start && trip.status == Suspended
    && trip.startedAt.Some? && command.occurredAt != trip.startedAt
  }

  /** The command resumes a trip that is only scheduled. */
  predicate ResumesUnstarted(trip: Trip, command: Command) {
    Outcome(trip, command).Ok? && command.kind == Resume && trip.status == Scheduled
  }

  /** A trip that is or was under way has a start. */
  predicate UnderwayIsStarted(trip: Trip) {
    trip.status !in {Draft, Scheduled, Cancelled} ==> trip.startedAt.Some?
  }

  /** An accepted command changes a start that is set exactly if it starts a suspended trip at another time. */
  lemma StartMovesExactly(trip: Trip, command: Command)
    requires Dated(trip) && trip.startedAt.Some? && Outcome(trip, command).Ok?
    ensures Outcome(trip, command).value.trip.startedAt != trip.startedAt <==> MovesStart(trip, command)
  {
    hide RequiredText, NormalPlan, WellFormed, Schedulable;
  }

  /** An accepted command brings a trip under way without a start exactly if it resumes a scheduled one. */
  lemma UnstartedExactly(trip: Trip, command: Command)
    requires Dated(trip) && UnderwayIsStarted(trip) && Outcome(trip, command).Ok?
    ensures !UnderwayIsStarted(Outcome(trip, command).value.trip) <==> ResumesUnstarted(trip, command)
  {
    hide RequiredText, NormalPlan, WellFormed, Schedulable;
  }

  lemma RefusedStays(journal: Journal, command: Command)
    ensures Outcome(journal.trip, command).Err? ==> Handle(journal, command) == journal
    ensures Outcome(journal.trip, command).Ok? ==> Handle(journal, command).trip == Outcome(journal.trip, command).value.trip
  {
  }

  /** One step of a run, refused or not. */
  lemma OneStep(first: Trip, commands: seq<Command>, n: nat)
    requires IsDraft(first) && n < |commands|
    ensures var before, after := After(first, commands[..n]).trip, After(first, commands[..n + 1]).trip;
            && (before.startedAt.Some? ==> (after.startedAt != before.startedAt <==> MovesStart(before, commands[n])))
            && (UnderwayIsStarted(before) ==> (!UnderwayIsStarted(after) <==> ResumesUnstarted(before, commands[n])))
  {
    hide IsDraft, After, Handle, Outcome, Dated, UnderwayIsStarted;
    var journal := After(first, commands[..n]);
    OneMore(first, commands, n);
    RunKeeps(first, commands[..n]);
    RefusedStays(journal, commands[n]);
    if Outcome(journal.trip, commands[n]).Ok? {
      if journal.trip.startedAt.Some? {
        StartMovesExactly(journal.trip, commands[n]);
      }
      if UnderwayIsStarted(journal.trip) {
        UnstartedExactly(journal.trip, commands[n]);
      }
    }
  }

  /** Of a run: from every point on at which it is set, the start is kept. */
  predicate StartIsKept(first: Trip, commands: seq<Command>) {
    forall a, b | 0 <= a <= b <= |commands| && After(first, commands[..a]).trip.startedAt.Some? ::
      After(first, commands[..b]).trip.startedAt == After(first, commands[..a]).trip.startedAt
  }

  lemma {:induction false} StartStays(first: Trip, commands: seq<Command>, a: nat, b: nat)
    requires IsDraft(first) && a <= b <= |commands| && After(first, commands[..a]).trip.startedAt.Some?
    requires forall n | 0 <= n < |commands| :: !MovesStart(After(first, commands[..n]).trip, commands[n])
    ensures After(first, commands[..b]).trip.startedAt == After(first, commands[..a]).trip.startedAt
    decreases b
  {
    hide IsDraft, After, MovesStart;
    if a < b {
      StartStays(first, commands, a, b - 1);
      OneStep(first, commands, b - 1);
    }
  }

  /** In a run the start, once set, is kept exactly if no accepted command starts a suspended trip at
      another time. */
  lemma StartIsKeptExactly(first: Trip, commands: seq<Command>)
    requires IsDraft(first)
    ensures StartIsKept(first, commands) <==>
            forall n | 0 <= n < |commands| :: !MovesStart(After(first, commands[..n]).trip, commands[n])
  {
    hide IsDraft, After, Outcome;
    if forall n | 0 <= n < |commands| :: !MovesStart(After(first, commands[..n]).trip, commands[n]) {
      forall a, b | 0 <= a <= b <= |commands| && After(first, commands[..a]).trip.startedAt.Some?
        ensures After(first, commands[..b]).trip.startedAt == After(first, commands[..a]).trip.startedAt
      {
        StartStays(first, commands, a, b);
      }
    } else {
      var n :| 0 <= n < |commands| && MovesStart(After(first, commands[..n]).trip, commands[n]);
      OneStep(first, commands, n);
      assert After(first, commands[..n + 1]).trip.startedAt != After(first, commands[..n]).trip.startedAt;
    }
  }

  lemma {:induction false} UnderwayStays(first: Trip, commands: seq<Command>, n: nat)
    requires IsDraft(first) && n <= |commands|
    requires forall k | 0 <= k < |commands| :: !ResumesUnstarted(After(first, commands[..k]).trip, commands[k])
    ensures UnderwayIsStarted(After(first, commands[..n]).trip)
    decreases n
  {
    hide IsDraft, After, ResumesUnstarted, UnderwayIsStarted;
    if n == 0 {
      assert commands[..0] == [];
      DraftIsNotUnderway(first);
    } else {
      UnderwayStays(first, commands, n - 1);
      OneStep(first, commands, n - 1);
    }
  }

  lemma DraftIsNotUnderway(first: Trip)
    requires IsDraft(first)
    ensures UnderwayIsStarted(After(first, []).trip)
  {
  }

  /** In a run every trip that is under way or was has a start, at every point, exactly if no accepted
      command resumes a scheduled trip. */
  lemma UnderwayIsStartedExactly(first: Trip, commands: seq<Command>)
    requires IsDraft(first)
    ensures (forall n | 0 <= n <= |commands| :: UnderwayIsStarted(After(first, commands[..n]).trip)) <==>
            forall k | 0 <= k < |commands| :: !ResumesUnstarted(After(first, commands[..k]).trip, commands[k])
  {
    hide IsDraft, After, ResumesUnstarted, UnderwayIsStarted;
    if forall k | 0 <= k < |commands| :: !ResumesUnstarted(After(first, commands[..k]).trip, commands[k]) {
      forall n | 0 <= n <= |commands| ensures UnderwayIsStarted(After(first, commands[..n]).trip) {
        UnderwayStays(first, commands, n);
      }
    } else {
      var k :| 0 <= k < |commands| && ResumesUnstarted(After(first, commands[..k]).trip, commands[k]);
      OneStep(first, commands, k);
      assert !UnderwayIsStarted(After(first, commands[..k]).trip) || !UnderwayIsStarted(After(first, commands[..k + 1]).trip);
    }
  }

  // ----- two runs in which the start is not what it seems -----

  const NAME: Text := [0x78]

  const DAY: Text := [0x32, 0x30, 0x32, 0x36, MINUS, 0x30, 0x31, MINUS, 0x33, 0x30]

  const PLAN := Plan(Some(DAY), [Leg(NAME, 1.0, NAME)])

  const DRAFT := DraftInput(NAME, NAME, NAME, ConfirmedService(NAME, 1.0), PLAN, NAME, NAME, Some(0))

  function Send(kind: CommandKind, version: int): Command {
    Command(kind, NAME, NAME, version as real, Some(version), PLAN, NAME, [])
  }

  lemma NameIsNormal(maxLength: nat)
    requires maxLength > 0
    ensures RequiredText(NAME, maxLength) == Some(NAME)
  {
    OneIsTidy(NAME[0]);
    TidyIsKept(NAME, maxLength);
  }

  lemma DayIsCivil()
    ensures IsCivilDate(DAY)
  {
    assert AllDigits(DAY[..4]) && AllDigits(DAY[5..7]) && AllDigits(DAY[8..]);
  }

  lemma PlanIsNormal()
    ensures NormalPlan(PLAN) == Ok(PLAN)
  {
    hide RequiredText, IsCivilDate;
    NameIsNormal(100);
    NameIsNormal(160);
    DayIsCivil();
    var leg := PLAN.legs[0];
    assert GoodLeg(leg) && NormalLeg(leg) == leg;
    assert NormalLegs([leg]) == [leg];
    assert Sort([leg], Earlier) == [leg];
  }

  const FIRST := Trip(NAME, NAME, NAME, ConfirmedService(NAME, 1.0), Draft, PLAN, 1, 0, None, None, None, NAME, 0, 0)

  lemma FirstIsCreated()
    ensures CreateDraft(DRAFT).Ok? && CreateDraft(DRAFT).value.trip == FIRST
  {
    NameIsNormal(100);
    NameIsNormal(80);
    PlanIsNormal();
    hide RequiredText, NormalPlan;
  }

  lemma SendIsWellFormed(kind: CommandKind, version: int)
    requires kind in {Schedule, Start, Suspend, Resume}
    ensures WellFormed(Send(kind, version))
  {
    NameIsNormal(1000);
    hide RequiredText, NormalPlan;
  }

  lemma SendIsInTime(trip: Trip, kind: CommandKind)
    requires trip.version >= 1 && trip.updatedAt <= trip.version
    ensures Context(trip, Send(kind, trip.version)) == Ok(trip.version)
  {
    NameIsNormal(100);
    hide RequiredText;
    assert (trip.version as real).Floor == trip.version;
  }

  /** One more accepted command. */
  lemma Sent(commands: seq<Command>, trip: Trip, kind: CommandKind) returns (more: seq<Command>)
    requires trip == After(FIRST, commands).trip
    requires kind in {Schedule, Start, Suspend, Resume} && AllowedIn(trip, kind)
    requires trip.version >= 1 && trip.updatedAt <= trip.version
    ensures more == commands + [Send(kind, trip.version)]
    ensures After(FIRST, more).trip ==
            trip.(status := Target(kind).value, version := trip.version + 1, updatedAt := trip.version,
                  planVersion := trip.planVersion + if kind == Schedule then 1 else 0,
                  scheduledAt := if kind == Schedule then Some(trip.version) else trip.scheduledAt,
                  startedAt := if kind == Start then Some(trip.version) else trip.startedAt)
  {
    hide CreateDraft, Context, AllowedIn, WellFormed, NormalPlan;
    var command := Send(kind, trip.version);
    SendIsWellFormed(kind, trip.version);
    SendIsInTime(trip, kind);
    more := commands + [command];
    assert more[..|commands|] == commands;
  }

  lemma FirstIsScheduled() returns (commands: seq<Command>)
    ensures After(FIRST, commands).trip ==
            FIRST.(status := Scheduled, version := 2, planVersion := 1, scheduledAt := Some(1), updatedAt := 1)
  {
    assert After(FIRST, []).trip == FIRST;
    hide After;
    commands := Sent([], FIRST, Schedule);
  }

  /** A scheduled trip can be resumed: it is then in execution although it never started. */
  lemma ResumedWithoutStart() returns (commands: seq<Command>)
    ensures CreateDraft(DRAFT).Ok? && CreateDraft(DRAFT).value.trip == FIRST
    ensures After(FIRST, commands).trip.status == InExecution && After(FIRST, commands).trip.startedAt == None
  {
    hide CreateDraft, After;
    FirstIsCreated();
    commands := FirstIsScheduled();
    commands := Sent(commands, After(FIRST, commands).trip, Resume);
  }

  /** A suspended trip can be started again, which moves its start. */
  lemma StartedTwice() returns (commands: seq<Command>, first: nat)
    ensures CreateDraft(DRAFT).Ok? && CreateDraft(DRAFT).value.trip == FIRST && first < |commands|
    ensures After(FIRST, commands[..first]).trip.startedAt == Some(2)
    ensures After(FIRST, commands).trip.status == InExecution && After(FIRST, commands).trip.startedAt == Some(4)
  {
    hide CreateDraft, After;
    FirstIsCreated();
    commands := FirstIsScheduled();
    var started := Sent(commands, After(FIRST, commands).trip, Start);
    var trip := After(FIRST, started).trip;
    assert trip.startedAt == Some(2) && trip.status == InExecution && trip.version == 3 && trip.updatedAt == 2;
    var suspended := Sent(started, trip, Suspend);
    commands := Sent(suspended, After(FIRST, suspended).trip, Start);
    first := |started|;
    assert commands[..first] == started;
  }
}

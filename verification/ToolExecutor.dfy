/** The audited execution of an agent's tool call: one audit row per call, one idempotent domain
    command, and a process that may fail or die at any call it makes. */
module ToolExecutor {
  import opened Prelude

  const MAXIMUM_TOOL_CALLS := 4
  const MAXIMUM_RESULT_BYTES := 8192

  datatype Status = Requested | Allowed | Denied | Succeeded | Failed

  /** A JSON object, as far as the audit looks at it. */
  datatype Payload = Payload(keys: nat, bytes: nat, content: int)

  datatype Input = Input(companyId: string, executionId: string, sequence: int, toolId: string,
                         providerResponseId: string, providerItemId: string, providerCallId: string,
                         functionName: string, fingerprint: string)

  datatype Key = Key(companyId: string, executionId: string, sequence: int)

  datatype Row = Row(toolId: string, fingerprint: string, providerResponseId: string, providerItemId: string,
                     providerCallId: string, functionName: string, status: Status, result: Option<Payload>)

  /** One command that took effect, and the call that sent it. */
  datatype Applied = Applied(sender: Key, command: string)

  datatype Database = Database(rows: map<Key, Row>, applied: seq<Applied>)

  const EMPTY := Database(map[], [])

  /** How one write ends: it may be lost or kept, and its caller may go on, see an error, or die. */
  datatype Fate = Works | Throws | ThrowsAfter | Dies | DiesAfter {
    predicate Commits() {
      Works? || ThrowsAfter? || DiesAfter?
    }

    predicate Kills() {
      Dies? || DiesAfter?
    }
  }

  datatype Reading = Passes | Refuses | ReaderDies

  datatype Authorization = Reauthorized(fingerprint: string, id: string) | NotReauthorized | AuthorizationDies

  /** Everything outside the executor that decides how one attempt goes. */
  datatype World = World(running: Reading, begin: Fate, control: Reading, authorization: Authorization,
                         allowed: Fate, denied: Fate, controlAgain: Reading, evidence: Reading, store: Fate,
                         answer: Payload, failed: Fate, succeeded: Fate)

  datatype Outcome =
    | Executed(result: Payload, authorizationId: string)
    | Replayed(result: Payload)
    | Rejected(error: AppError)
    | Unavailable
    | Died

  datatype Progress = Go | Stop(outcome: Outcome)

  function KeyOf(input: Input): Key {
    Key(input.companyId, input.executionId, input.sequence)
  }

  predicate Executable(functionName: string) {
    functionName in ["registration_read", "registration_update", "registration_draft_start",
                     "registration_draft_patch", "registration_draft_abandon", "customer-profile_suggest",
                     "knowledge_gap_observe", "knowledge_suggestion_create"]
  }

  /** Reading a registration sends no command. */
  predicate SendsCommand(functionName: string) {
    functionName != "registration_read"
  }

  /** What the command id is the digest of. */
  function CommandText(companyId: string, executionId: string, providerCallId: string, functionName: string,
                       fingerprint: string): string {
    companyId + ":" + executionId + ":" + providerCallId + ":" + functionName + ":" + fingerprint
  }

  function CommandOf(key: Key, row: Row): string {
    CommandText(key.companyId, key.executionId, row.providerCallId, row.functionName, row.fingerprint)
  }

  function Command(input: Input): string {
    CommandText(input.companyId, input.executionId, input.providerCallId, input.functionName, input.fingerprint)
  }

  // ----- one attempt, as a function -----

  function NewRow(input: Input): Row {
    Row(input.toolId, input.fingerprint, input.providerResponseId, input.providerItemId, input.providerCallId,
        input.functionName, Requested, None)
  }

  predicate Matches(row: Row, input: Input) {
    && row.toolId == input.toolId
    && row.fingerprint == input.fingerprint
    && row.providerResponseId == input.providerResponseId
    && row.providerItemId == input.providerItemId
    && row.providerCallId == input.providerCallId
    && row.functionName == input.functionName
  }

  function Inspect(row: Row, input: Input): Progress {
    if !Matches(row, input) then Stop(Rejected(Conflict))
    else match row.status
      case Succeeded =>
        if row.result.None? || row.result.value.keys == 0 then Stop(Rejected(Conflict))
        else Stop(Replayed(row.result.value))
      case Denied => Stop(Rejected(Forbidden))
      case Failed => Stop(Rejected(Forbidden))
      case _ => Go
  }

  function Upserted(db: Database, input: Input, fate: Fate): Database {
    if fate.Commits() && KeyOf(input) !in db.rows then db.(rows := db.rows[KeyOf(input) := NewRow(input)]) else db
  }

  function BeginStep(db: Database, input: Input, fate: Fate): (Database, Progress) {
    var next := Upserted(db, input, fate);
    if fate.Works? then (next, Inspect(next.rows[KeyOf(input)], input))
    else (next, Stop(if fate.Kills() then Died else Unavailable))
  }

  function Marked(db: Database, key: Key, status: Status, result: Option<Payload>, fate: Fate): Database
    requires key in db.rows
  {
    if fate.Commits() then db.(rows := db.rows[key := db.rows[key].(status := status, result := result)]) else db
  }

  /** A last mark, and what the caller of the attempt gets: `done` if it could be written. */
  function LastMark(db: Database, key: Key, status: Status, result: Option<Payload>, fate: Fate, done: Outcome)
    : (Database, Outcome)
    requires key in db.rows
  {
    (Marked(db, key, status, result, fate),
     if fate.Works? then done else if fate.Kills() then Died else Unavailable)
  }

  const FAILED_SUMMARY := Payload(1, 19, 0)

  function DenyStep(db: Database, key: Key, fate: Fate): (Database, Outcome)
    requires key in db.rows
  {
    LastMark(db, key, Denied, db.rows[key].result, fate, Rejected(Forbidden))
  }

  function FailStep(db: Database, key: Key, fate: Fate): (Database, Outcome)
    requires key in db.rows
  {
    LastMark(db, key, Failed, Some(FAILED_SUMMARY), fate, Rejected(Forbidden))
  }

  datatype Verdict = Granted(id: string) | Refused | Killed

  function Judge(input: Input, world: World): Verdict {
    if world.control.ReaderDies? then Killed
    else if world.control.Refuses? then Refused
    else match world.authorization
      case AuthorizationDies => Killed
      case NotReauthorized => Refused
      case Reauthorized(fingerprint, id) =>
        if fingerprint != input.fingerprint || !Executable(input.functionName) then Refused else Granted(id)
  }

  function AuthorizeStep(db: Database, input: Input, world: World): (Database, Progress)
    requires KeyOf(input) in db.rows
  {
    var key := KeyOf(input);
    match Judge(input, world)
    case Killed => (db, Stop(Died))
    case Refused => var (next, outcome) := DenyStep(db, key, world.denied); (next, Stop(outcome))
    case Granted(_) =>
      var next := Marked(db, key, Allowed, db.rows[key].result, world.allowed);
      if world.allowed.Works? then (next, Go)
      else if world.allowed.Kills() then (next, Stop(Died))
      else var (last, outcome) := DenyStep(next, key, world.denied); (last, Stop(outcome))
  }

  predicate IsApplied(db: Database, command: string) {
    exists i | 0 <= i < |db.applied| :: db.applied[i].command == command
  }

  /** The domain's store ignores a command it has seen. */
  function Stored(db: Database, input: Input, fate: Fate): Database {
    if fate.Commits() && SendsCommand(input.functionName) && !IsApplied(db, Command(input)) then
      db.(applied := db.applied + [Applied(KeyOf(input), Command(input))])
    else db
  }

  function PerformStep(db: Database, input: Input, world: World, authorizationId: string): (Database, Outcome)
    requires KeyOf(input) in db.rows
  {
    var key := KeyOf(input);
    if world.controlAgain.ReaderDies? then (db, Died)
    else if world.controlAgain.Refuses? then FailStep(db, key, world.failed)
    else if world.evidence.ReaderDies? then (db, Died)
    else if world.evidence.Refuses? then FailStep(db, key, world.failed)
    else
      var next := Stored(db, input, world.store);
      if world.store.Kills() then (next, Died)
      else if !world.store.Works? || world.answer.bytes > MAXIMUM_RESULT_BYTES then
        FailStep(next, key, world.failed)
      else
        LastMark(next, key, Succeeded, Some(world.answer), world.succeeded, Executed(world.answer, authorizationId))
  }

  function AuthorizedStep(db: Database, input: Input, world: World): (Database, Outcome)
    requires KeyOf(input) in db.rows
  {
    var (next, progress) := AuthorizeStep(db, input, world);
    match progress
    case Stop(outcome) => (next, outcome)
    case Go => PerformStep(next, input, world, Judge(input, world).id)
  }

  /** One call of `execute`. */
  function AttemptStep(db: Database, input: Input, world: World): (Database, Outcome) {
    if !(1 <= input.sequence <= MAXIMUM_TOOL_CALLS) then (db, Rejected(ValidationError))
    else if world.running.ReaderDies? then (db, Died)
    else if world.running.Refuses? then (db, Rejected(Forbidden))
    else
      var (next, progress) := BeginStep(db, input, world.begin);
      match progress
      case Stop(outcome) => (next, outcome)
      case Go => AuthorizedStep(next, input, world)
  }

  // ----- one attempt, step by step -----

  class ToolCallExecutor {
    var rows: map<Key, Row>
    var applied: seq<Applied>

    constructor ()
      ensures Db() == EMPTY
    {
      rows, applied := map[], [];
    }

    function Db(): Database
      reads this
    {
      Database(rows, applied)
    }

    method Begin(input: Input, fate: Fate) returns (progress: Progress)
      modifies this
      ensures (Db(), progress) == BeginStep(old(Db()), input, fate)
    {
      var key := KeyOf(input);
      if fate.Commits() && key !in rows {
        rows := rows[key := NewRow(input)];
      }
      if !fate.Works? {
        return Stop(if fate.Kills() then Died else Unavailable);
      }
      var existing := rows[key];
      if !Matches(existing, input) {
        return Stop(Rejected(Conflict));
      }
      if existing.status == Succeeded {
        if existing.result.None? || existing.result.value.keys == 0 {
          return Stop(Rejected(Conflict));
        }
        return Stop(Replayed(existing.result.value));
      }
      if existing.status == Denied || existing.status == Failed {
        return Stop(Rejected(Forbidden));
      }
      return Go;
    }

    method Mark(key: Key, status: Status, result: Option<Payload>, fate: Fate)
      requires key in rows
      modifies this
      ensures Db() == Marked(old(Db()), key, status, result, fate)
    {
      if fate.Commits() {
        rows := rows[key := rows[key].(status := status, result := result)];
      }
    }

    method MarkLast(key: Key, status: Status, result: Option<Payload>, fate: Fate, done: Outcome)
      returns (outcome: Outcome)
      requires key in rows
      modifies this
      ensures (Db(), outcome) == LastMark(old(Db()), key, status, result, fate, done)
    {
      Mark(key, status, result, fate);
      outcome := if fate.Works? then done else if fate.Kills() then Died else Unavailable;
    }

    method Authorize(input: Input, world: World) returns (progress: Progress)
      requires KeyOf(input) in rows
      modifies this
      ensures (Db(), progress) == AuthorizeStep(old(Db()), input, world)
    {
      var key := KeyOf(input);
      var verdict := Judge(input, world);
      if verdict.Killed? {
        return Stop(Died);
      }
      if verdict.Granted? {
        Mark(key, Allowed, rows[key].result, world.allowed);
        if world.allowed.Works? {
          return Go;
        }
        if world.allowed.Kills() {
          return Stop(Died);
        }
      }
      var outcome := MarkLast(key, Denied, rows[key].result, world.denied, Rejected(Forbidden));
      return Stop(outcome);
    }

    method Perform(input: Input, world: World, authorizationId: string) returns (outcome: Outcome)
      requires KeyOf(input) in rows
      modifies this
      ensures (Db(), outcome) == PerformStep(old(Db()), input, world, authorizationId)
    {
      var key := KeyOf(input);
      if world.controlAgain.ReaderDies? || (world.controlAgain.Passes? && world.evidence.ReaderDies?) {
        return Died;
      }
      var done := false;
      if world.controlAgain.Passes? && world.evidence.Passes? {
        if world.store.Commits() && SendsCommand(input.functionName) && !IsApplied(Db(), Command(input)) {
          applied := applied + [Applied(key, Command(input))];
        }
        if world.store.Kills() {
          return Died;
        }
        done := world.store.Works? && world.answer.bytes <= MAXIMUM_RESULT_BYTES;
      }
      if !done {
        outcome := MarkLast(key, Failed, Some(FAILED_SUMMARY), world.failed, Rejected(Forbidden));
      } else {
        outcome := MarkLast(key, Succeeded, Some(world.answer), world.succeeded,
                            Executed(world.answer, authorizationId));
      }
    }

    method Execute(input: Input, world: World) returns (outcome: Outcome)
      modifies this
      ensures (Db(), outcome) == AttemptStep(old(Db()), input, world)
    {
      if !(1 <= input.sequence <= MAXIMUM_TOOL_CALLS) {
        return Rejected(ValidationError);
      }
      if !world.running.Passes? {
        return if world.running.ReaderDies? then Died else Rejected(Forbidden);
      }
      var progress := Begin(input, world.begin);
      if progress.Stop? {
        return progress.outcome;
      }
      progress := Authorize(input, world);
      if progress.Stop? {
        return progress.outcome;
      }
      outcome := Perform(input, world, Judge(input, world).id);
    }
  }

  // ----- what every attempt keeps -----

  predicate AppliedBy(db: Database, key: Key) {
    exists i | 0 <= i < |db.applied| :: db.applied[i].sender == key
  }

  predicate Terminal(status: Status) {
    status == Denied || status == Succeeded || status == Failed
  }

  ghost predicate RowSound(db: Database, key: Key)
    requires key in db.rows
  {
    var row := db.rows[key];
    && (row.status == Requested ==> !AppliedBy(db, key))
    && (row.status == Succeeded ==>
          && row.result.Some? && row.result.value.bytes <= MAXIMUM_RESULT_BYTES
          && (SendsCommand(row.functionName) ==> IsApplied(db, CommandOf(key, row))))
  }

  /** Every effect belongs to the row that sent it, and no command took effect twice. */
  ghost predicate LogSound(db: Database) {
    && (forall i | 0 <= i < |db.applied| ::
          db.applied[i].sender in db.rows && db.applied[i].command == CommandOf(db.applied[i].sender, db.rows[db.applied[i].sender]))
    && (forall i, j | 0 <= i < j < |db.applied| :: db.applied[i].command != db.applied[j].command)
  }

  ghost predicate Sound(db: Database) {
    LogSound(db) && forall key | key in db.rows :: RowSound(db, key)
  }

  predicate SameCall(a: Row, b: Row) {
    a.(status := b.status, result := b.result) == b
  }

  /** What no attempt undoes: rows stay, with the call they stand for; a row that has ended stays as it
      is, and no effect is ever added for it; effects are never withdrawn. */
  ghost predicate Extends(before: Database, after: Database) {
    && before.applied <= after.applied
    && (forall key | key in before.rows :: key in after.rows && SameCall(before.rows[key], after.rows[key]))
    && (forall key | key in before.rows && Terminal(before.rows[key].status) ::
          after.rows[key] == before.rows[key] && AppliedBy(after, key) == AppliedBy(before, key))
  }

  lemma ExtendsItself(db: Database)
    ensures Extends(db, db)
  {
  }

  lemma ExtendsFurther(a: Database, b: Database, c: Database)
    requires Extends(a, b) && Extends(b, c)
    ensures Extends(a, c)
  {
    hide AppliedBy, Terminal;
    assert forall key | key in a.rows :: key in b.rows && SameCall(a.rows[key], b.rows[key]);
  }

  lemma UpsertKeeps(db: Database, input: Input, fate: Fate)
    requires Sound(db)
    ensures Sound(Upserted(db, input, fate)) && Extends(db, Upserted(db, input, fate))
    ensures fate.Commits() ==> KeyOf(input) in Upserted(db, input, fate).rows
  {
    hide CommandOf;
    var next := Upserted(db, input, fate);
    forall key | key in next.rows ensures RowSound(next, key) {
      assert key in db.rows ==> RowSound(db, key);
    }
  }

  /** A row whose result may be recorded as a success. */
  ghost predicate Recordable(db: Database, key: Key, result: Option<Payload>)
    requires key in db.rows
  {
    && result.Some? && result.value.bytes <= MAXIMUM_RESULT_BYTES
    && (SendsCommand(db.rows[key].functionName) ==> IsApplied(db, CommandOf(key, db.rows[key])))
  }

  lemma MarkKeeps(db: Database, key: Key, status: Status, result: Option<Payload>, fate: Fate)
    requires Sound(db) && key in db.rows && !Terminal(db.rows[key].status) && status != Requested
    requires status == Succeeded ==> Recordable(db, key, result)
    ensures Sound(Marked(db, key, status, result, fate)) && Extends(db, Marked(db, key, status, result, fate))
  {
    hide CommandText;
    var next := Marked(db, key, status, result, fate);
    forall k | k in next.rows ensures RowSound(next, k) {
      assert RowSound(db, k);
    }
  }

  lemma StoreKeeps(db: Database, input: Input, fate: Fate)
    requires Sound(db) && KeyOf(input) in db.rows && Matches(db.rows[KeyOf(input)], input)
    requires db.rows[KeyOf(input)].status == Allowed
    ensures Sound(Stored(db, input, fate)) && Extends(db, Stored(db, input, fate))
    ensures fate.Commits() && SendsCommand(input.functionName) ==> IsApplied(Stored(db, input, fate), Command(input))
  {
    hide CommandText;
    var next := Stored(db, input, fate);
    if next != db {
      assert next.applied[|db.applied|] == Applied(KeyOf(input), Command(input));
      assert forall i | 0 <= i < |db.applied| :: next.applied[i] == db.applied[i];
      forall k | k in next.rows ensures RowSound(next, k) {
        assert RowSound(db, k);
        AppliedGrows(db, next, CommandOf(k, db.rows[k]));
        SendersGrow(db, next, KeyOf(input), k);
      }
      forall k | k in db.rows && Terminal(db.rows[k].status) ensures AppliedBy(next, k) == AppliedBy(db, k) {
        SendersGrow(db, next, KeyOf(input), k);
      }
    }
  }

  lemma AppliedGrows(db: Database, next: Database, command: string)
    requires db.applied <= next.applied
    ensures IsApplied(db, command) ==> IsApplied(next, command)
  {
    if IsApplied(db, command) {
      var i :| 0 <= i < |db.applied| && db.applied[i].command == command;
      assert next.applied[i] == db.applied[i];
    }
  }

  /** Appending an entry of one sender changes nothing for the others. */
  lemma SendersGrow(db: Database, next: Database, sender: Key, k: Key)
    requires |next.applied| == |db.applied| + 1 && db.applied <= next.applied
    requires next.applied[|db.applied|].sender == sender
    ensures k != sender ==> AppliedBy(next, k) == AppliedBy(db, k)
  {
    assert forall i | 0 <= i < |db.applied| :: next.applied[i] == db.applied[i];
  }

  // ----- whole attempts -----

  lemma PerformKeeps(db: Database, input: Input, world: World, id: string)
    requires Sound(db) && KeyOf(input) in db.rows && Matches(db.rows[KeyOf(input)], input)
    requires db.rows[KeyOf(input)].status == Allowed
    ensures Sound(PerformStep(db, input, world, id).0) && Extends(db, PerformStep(db, input, world, id).0)
  {
    hide Sound, Extends, IsApplied, CommandText;
    var key := KeyOf(input);
    ExtendsItself(db);
    MarkKeeps(db, key, Failed, Some(FAILED_SUMMARY), world.failed);
    var next := Stored(db, input, world.store);
    StoreKeeps(db, input, world.store);
    MarkKeeps(next, key, Failed, Some(FAILED_SUMMARY), world.failed);
    ExtendsFurther(db, next, Marked(next, key, Failed, Some(FAILED_SUMMARY), world.failed));
    if world.store.Works? && world.answer.bytes <= MAXIMUM_RESULT_BYTES {
      MarkKeeps(next, key, Succeeded, Some(world.answer), world.succeeded);
      ExtendsFurther(db, next, Marked(next, key, Succeeded, Some(world.answer), world.succeeded));
    }
  }

  lemma AuthorizeKeeps(db: Database, input: Input, world: World)
    requires Sound(db) && KeyOf(input) in db.rows && Matches(db.rows[KeyOf(input)], input)
    requires !Terminal(db.rows[KeyOf(input)].status)
    ensures Sound(AuthorizeStep(db, input, world).0) && Extends(db, AuthorizeStep(db, input, world).0)
    ensures AuthorizeStep(db, input, world).1.Go? ==>
              && Judge(input, world).Granted?
              && KeyOf(input) in AuthorizeStep(db, input, world).0.rows
              && Matches(AuthorizeStep(db, input, world).0.rows[KeyOf(input)], input)
              && AuthorizeStep(db, input, world).0.rows[KeyOf(input)].status == Allowed
  {
    hide Sound, Extends, Judge;
    var key := KeyOf(input);
    ExtendsItself(db);
    MarkKeeps(db, key, Denied, db.rows[key].result, world.denied);
    MarkKeeps(db, key, Allowed, db.rows[key].result, world.allowed);
    var next := Marked(db, key, Allowed, db.rows[key].result, world.allowed);
    MarkKeeps(next, key, Denied, next.rows[key].result, world.denied);
    ExtendsFurther(db, next, Marked(next, key, Denied, next.rows[key].result, world.denied));
  }

  /** Whatever the world does to an attempt, it keeps the database sound and undoes nothing. */
  lemma AttemptKeeps(db: Database, input: Input, world: World)
    requires Sound(db)
    ensures Sound(AttemptStep(db, input, world).0) && Extends(db, AttemptStep(db, input, world).0)
  {
    hide Sound, Extends, AuthorizeStep, PerformStep, Matches, Terminal;
    ExtendsItself(db);
    UpsertKeeps(db, input, world.begin);
    var (begun, progress) := BeginStep(db, input, world.begin);
    if progress.Go? {
      GoMeansOpen(db, input, world.begin);
      AuthorizeKeeps(begun, input, world);
      var (allowed, verdict) := AuthorizeStep(begun, input, world);
      ExtendsFurther(db, begun, allowed);
      if verdict.Go? {
        var id := Judge(input, world).id;
        PerformKeeps(allowed, input, world, id);
        ExtendsFurther(db, allowed, PerformStep(allowed, input, world, id).0);
      }
    }
  }

  lemma GoMeansOpen(db: Database, input: Input, fate: Fate)
    requires BeginStep(db, input, fate).1.Go?
    ensures KeyOf(input) in BeginStep(db, input, fate).0.rows
    ensures Matches(BeginStep(db, input, fate).0.rows[KeyOf(input)], input)
    ensures !Terminal(BeginStep(db, input, fate).0.rows[KeyOf(input)].status)
  {
  }

  // ----- runs: attempts of any calls, one after another -----

  datatype Attempt = Attempt(input: Input, world: World)

  function After(run: seq<Attempt>): Database {
    if run == [] then EMPTY
    else AttemptStep(After(run[..|run| - 1]), run[|run| - 1].input, run[|run| - 1].world).0
  }

  lemma {:induction false} RunIsSound(run: seq<Attempt>)
    ensures Sound(After(run))
  {
    if run != [] {
      hide AttemptStep, Sound;
      RunIsSound(run[..|run| - 1]);
      AttemptKeeps(After(run[..|run| - 1]), run[|run| - 1].input, run[|run| - 1].world);
    }
  }

  lemma {:induction false} RunExtends(run: seq<Attempt>, n: nat)
    requires n <= |run|
    ensures Extends(After(run[..n]), After(run))
    decreases |run|
  {
    hide AttemptStep, Extends;
    if n == |run| {
      assert run[..n] == run;
      ExtendsItself(After(run));
    } else {
      var before := run[..|run| - 1];
      assert before[..n] == run[..n];
      RunExtends(before, n);
      RunIsSound(before);
      AttemptKeeps(After(before), run[|run| - 1].input, run[|run| - 1].world);
      ExtendsFurther(After(run[..n]), After(before), After(run));
    }
  }

  /** However often attempts are retried, and wherever they die, each audited call takes effect at most
      once, and so does each command. */
  lemma EffectAtMostOnce(run: seq<Attempt>, i: nat, j: nat)
    requires i < j < |After(run).applied|
    ensures After(run).applied[i].sender != After(run).applied[j].sender
    ensures After(run).applied[i].command != After(run).applied[j].command
  {
    hide After, CommandOf;
    RunIsSound(run);
  }

  /** A call that has been denied, has failed or has succeeded stays as recorded, and whether it took
      effect no longer changes. */
  lemma EndedIsFinal(run: seq<Attempt>, n: nat, key: Key)
    requires n <= |run| && key in After(run[..n]).rows && Terminal(After(run[..n]).rows[key].status)
    ensures key in After(run).rows && After(run).rows[key] == After(run[..n]).rows[key]
    ensures AppliedBy(After(run), key) == AppliedBy(After(run[..n]), key)
  {
    hide After, AppliedBy;
    RunExtends(run, n);
  }

  /** The attempt passes `begin`, and goes on to be authorized and executed. */
  predicate PassesBegin(db: Database, attempt: Attempt) {
    && 1 <= attempt.input.sequence <= MAXIMUM_TOOL_CALLS
    && attempt.world.running.Passes?
    && BeginStep(db, attempt.input, attempt.world.begin).1.Go?
  }

  lemma PassedIsRecorded(db: Database, attempt: Attempt)
    requires Sound(db) && PassesBegin(db, attempt)
    ensures var next := AttemptStep(db, attempt.input, attempt.world).0;
            && KeyOf(attempt.input) in next.rows
            && CommandOf(KeyOf(attempt.input), next.rows[KeyOf(attempt.input)]) == Command(attempt.input)
  {
    hide Sound, CommandText, AuthorizeStep, PerformStep, Matches;
    var input, world := attempt.input, attempt.world;
    GoMeansOpen(db, input, world.begin);
    UpsertKeeps(db, input, world.begin);
    var begun := BeginStep(db, input, world.begin).0;
    AuthorizeKeeps(begun, input, world);
    var (allowed, verdict) := AuthorizeStep(begun, input, world);
    SameCommand(begun, allowed, KeyOf(input), input);
    if verdict.Go? {
      PerformKeeps(allowed, input, world, Judge(input, world).id);
      SameCommand(allowed, PerformStep(allowed, input, world, Judge(input, world).id).0, KeyOf(input), input);
    }
  }

  lemma SameCommand(before: Database, after: Database, key: Key, input: Input)
    requires Extends(before, after) && key == KeyOf(input) && key in before.rows && Matches(before.rows[key], input)
    ensures key in after.rows && CommandOf(key, after.rows[key]) == Command(input)
  {
  }

  /** All attempts of one audited call that pass `begin` send one and the same command. */
  lemma OneCommand(run: seq<Attempt>, i: nat, j: nat)
    requires i < j < |run| && KeyOf(run[i].input) == KeyOf(run[j].input)
    requires PassesBegin(After(run[..i]), run[i]) && PassesBegin(After(run[..j]), run[j])
    ensures Command(run[i].input) == Command(run[j].input)
  {
    hide AttemptStep, Sound, PassesBegin, CommandText, AppliedBy, Terminal;
    var first, second := After(run[..i + 1]), After(run[..j + 1]);
    RunIsSound(run[..i]);
    RunIsSound(run[..j]);
    PassedIsRecorded(After(run[..i]), run[i]);
    PassedIsRecorded(After(run[..j]), run[j]);
    assert run[..i + 1][..i] == run[..i] && run[..j + 1][..j] == run[..j];
    assert run[..j + 1][..i + 1] == run[..i + 1];
    hide After;
    RunExtends(run[..j + 1], i + 1);
    assert SameCall(first.rows[KeyOf(run[i].input)], second.rows[KeyOf(run[i].input)]);
  }

  /** A recorded success did take effect, and every later attempt of the call gets the recorded result
      and changes nothing; only a recorded result without a single key is refused. */
  lemma SuccessIsReplayed(run: seq<Attempt>, n: nat, input: Input, world: World)
    requires n <= |run| && KeyOf(input) in After(run[..n]).rows
    requires Matches(After(run[..n]).rows[KeyOf(input)], input)
    requires After(run[..n]).rows[KeyOf(input)].status == Succeeded
    ensures After(run[..n]).rows[KeyOf(input)].result.Some?
    ensures SendsCommand(input.functionName) ==> IsApplied(After(run), Command(input))
    ensures AttemptStep(After(run), input, world).0 == After(run)
    ensures !AttemptStep(After(run), input, world).1.Executed?
    ensures 1 <= input.sequence <= MAXIMUM_TOOL_CALLS && world.running.Passes? && world.begin.Works? ==>
              AttemptStep(After(run), input, world).1 ==
              var result := After(run[..n]).rows[KeyOf(input)].result.value;
              if result.keys == 0 then Rejected(Conflict) else Replayed(result)
  {
    hide After, IsApplied, CommandText, AuthorizedStep;
    RunIsSound(run[..n]);
    RunIsSound(run);
    EndedIsFinal(run, n, KeyOf(input));
    assert RowSound(After(run), KeyOf(input));
    assert RowSound(After(run[..n]), KeyOf(input));
  }

  /** A result handed out was first recorded, and its command has taken effect. */
  lemma ExecutedIsRecorded(run: seq<Attempt>, input: Input, world: World)
    requires AttemptStep(After(run), input, world).1.Executed?
    ensures var (next, outcome) := AttemptStep(After(run), input, world);
            && KeyOf(input) in next.rows
            && next.rows[KeyOf(input)].status == Succeeded
            && next.rows[KeyOf(input)].result == Some(outcome.result)
            && Matches(next.rows[KeyOf(input)], input)
            && (SendsCommand(input.functionName) ==> IsApplied(next, Command(input)))
  {
    hide After, Sound, IsApplied, CommandText, Matches, Terminal;
    RunIsSound(run);
    var db := After(run);
    UpsertKeeps(db, input, world.begin);
    GoMeansOpen(db, input, world.begin);
    var begun := BeginStep(db, input, world.begin).0;
    AuthorizeKeeps(begun, input, world);
    ExecutedPerforms(AuthorizeStep(begun, input, world).0, input, world, Judge(input, world).id);
  }

  lemma ExecutedPerforms(db: Database, input: Input, world: World, id: string)
    requires Sound(db) && KeyOf(input) in db.rows && Matches(db.rows[KeyOf(input)], input)
    requires db.rows[KeyOf(input)].status == Allowed
    requires PerformStep(db, input, world, id).1.Executed?
    ensures var (next, outcome) := PerformStep(db, input, world, id);
            && KeyOf(input) in next.rows
            && next.rows[KeyOf(input)].status == Succeeded
            && next.rows[KeyOf(input)].result == Some(outcome.result)
            && Matches(next.rows[KeyOf(input)], input)
            && (SendsCommand(input.functionName) ==> IsApplied(next, Command(input)))
  {
    hide Sound, CommandText;
    StoreKeeps(db, input, world.store);
  }

  predicate Favourable(input: Input, world: World) {
    && world.running.Passes? && world.begin.Works? && world.control.Passes?
    && world.authorization.Reauthorized? && world.authorization.fingerprint == input.fingerprint
    && world.allowed.Works? && world.controlAgain.Passes? && world.evidence.Passes? && world.store.Works?
    && world.answer.bytes <= MAXIMUM_RESULT_BYTES && world.succeeded.Works?
  }

  /** A call left open by a crash, wherever it happened, is finished by the next undisturbed attempt:
      the success is recorded, and a command that had already taken effect is not applied again. */
  lemma RetryFinishes(db: Database, input: Input, world: World)
    requires Sound(db) && 1 <= input.sequence <= MAXIMUM_TOOL_CALLS && Executable(input.functionName)
    requires Favourable(input, world)
    requires KeyOf(input) in db.rows ==>
               Matches(db.rows[KeyOf(input)], input) && !Terminal(db.rows[KeyOf(input)].status)
    ensures var (next, outcome) := AttemptStep(db, input, world);
            && outcome.Executed? && outcome.result == world.answer
            && KeyOf(input) in next.rows
            && next.rows[KeyOf(input)].status == Succeeded
            && next.rows[KeyOf(input)].result == Some(world.answer)
            && next.applied ==
               if SendsCommand(input.functionName) && !IsApplied(db, Command(input)) then
                 db.applied + [Applied(KeyOf(input), Command(input))]
               else db.applied
  {
    hide Sound, CommandText, Executable;
    var begun := BeginStep(db, input, world.begin).0;
    assert begun.applied == db.applied;
    assert IsApplied(begun, Command(input)) == IsApplied(db, Command(input));
    var allowed := AuthorizeStep(begun, input, world).0;
    assert allowed.applied == db.applied;
    assert IsApplied(allowed, Command(input)) == IsApplied(db, Command(input));
  }

  // ----- what a denial or a failure says about the effect -----

  predicate Becomes(db: Database, next: Database, key: Key, status: Status) {
    key in next.rows && next.rows[key].status == status && (key in db.rows ==> db.rows[key].status != status)
  }

  /** A denial adds no effect; if there is one already, the row had been allowed before. */
  lemma DenialAddsNoEffect(db: Database, input: Input, world: World)
    requires Sound(db) && Becomes(db, AttemptStep(db, input, world).0, KeyOf(input), Denied)
    ensures AttemptStep(db, input, world).0.applied == db.applied
    ensures AppliedBy(db, KeyOf(input)) ==> KeyOf(input) in db.rows && db.rows[KeyOf(input)].status == Allowed
  {
    hide IsApplied, CommandText, CommandOf, Judge;
    var key := KeyOf(input);
    if key in db.rows {
      assert RowSound(db, key);
    }
  }

  /** This attempt's command reached the store and took effect. */
  predicate TakesEffect(db: Database, input: Input, world: World) {
    && world.controlAgain.Passes? && world.evidence.Passes? && world.store.Commits()
    && SendsCommand(input.functionName) && !IsApplied(db, Command(input))
  }

  /** After a failing attempt the call has taken effect exactly if it had before, or this very attempt's
      command reached the store. */
  lemma FailureHidesEffect(db: Database, input: Input, world: World)
    requires Sound(db) && Becomes(db, AttemptStep(db, input, world).0, KeyOf(input), Failed)
    ensures AppliedBy(AttemptStep(db, input, world).0, KeyOf(input)) <==>
            AppliedBy(db, KeyOf(input)) || TakesEffect(db, input, world)
  {
    hide CommandText, CommandOf, Sound, Matches, Judge;
    var key := KeyOf(input);
    var next := AttemptStep(db, input, world).0;
    var begun := BeginStep(db, input, world.begin).0;
    var allowed := AuthorizeStep(begun, input, world).0;
    assert allowed.applied == db.applied;
    assert IsApplied(allowed, Command(input)) == IsApplied(db, Command(input));
    if TakesEffect(db, input, world) {
      assert next.applied[|db.applied|].sender == key;
    } else {
      assert next.applied == db.applied;
    }
  }

  // ----- which attempts take effect -----

  /** The attempt passes `begin`, is granted and recorded as allowed, its evidence is accepted, and the store
      keeps its command. */
  predicate ReachesStore(db: Database, attempt: Attempt) {
    var input, world := attempt.input, attempt.world;
    && PassesBegin(db, attempt) && Judge(input, world).Granted? && world.allowed.Works?
    && world.controlAgain.Passes? && world.evidence.Passes? && world.store.Commits() && SendsCommand(input.functionName)
  }

  /** Moreover, the command is new to the store. */
  predicate TookEffect(db: Database, attempt: Attempt) {
    ReachesStore(db, attempt) && !IsApplied(db, Command(attempt.input))
  }

  /** An attempt adds its command exactly if it takes effect, and nothing else. */
  lemma AttemptApplies(db: Database, attempt: Attempt)
    ensures AttemptStep(db, attempt.input, attempt.world).0.applied ==
            if TookEffect(db, attempt) then db.applied + [Applied(KeyOf(attempt.input), Command(attempt.input))]
            else db.applied
  {
    hide CommandText, Matches, Judge;
    var input, world := attempt.input, attempt.world;
    var begun := BeginStep(db, input, world.begin).0;
    assert begun.applied == db.applied;
    if PassesBegin(db, attempt) {
      var allowed := AuthorizeStep(begun, input, world).0;
      assert allowed.applied == db.applied;
      assert IsApplied(allowed, Command(input)) == IsApplied(db, Command(input));
    }
  }

  lemma AppliedOneMore(db: Database, entry: Applied, next: Database, key: Key, command: string)
    requires next.applied == db.applied + [entry]
    ensures AppliedBy(next, key) <==> AppliedBy(db, key) || entry.sender == key
    ensures IsApplied(next, command) <==> IsApplied(db, command) || entry.command == command
  {
    assert next.applied[|db.applied|] == entry;
    assert forall i | 0 <= i < |db.applied| :: next.applied[i] == db.applied[i];
  }

  /** Attempt `i` of the run is for this call, and takes effect. */
  predicate TookEffectAt(run: seq<Attempt>, i: nat, key: Key)
    requires i < |run|
  {
    KeyOf(run[i].input) == key && TookEffect(After(run[..i]), run[i])
  }

  /** Attempt `i` of the run sends this command, and it reaches the store. */
  predicate SentAt(run: seq<Attempt>, i: nat, command: string)
    requires i < |run|
  {
    Command(run[i].input) == command && ReachesStore(After(run[..i]), run[i])
  }

  /** A call has taken effect exactly if some attempt of it was granted, recorded as allowed, had its evidence
      accepted, and sent a command that was new to the store. */
  lemma {:induction false} EffectExactly(run: seq<Attempt>, key: Key)
    ensures AppliedBy(After(run), key) <==> exists i | 0 <= i < |run| :: TookEffectAt(run, i, key)
  {
    if run != [] {
      hide AttemptStep, TookEffect, CommandText, AppliedBy;
      var last := |run| - 1;
      var before := run[..last];
      EffectExactly(before, key);
      forall i | 0 <= i < last ensures TookEffectAt(run, i, key) <==> TookEffectAt(before, i, key) {
        assert before[..i] == run[..i] && before[i] == run[i];
      }
      AttemptApplies(After(before), run[last]);
      if TookEffect(After(before), run[last]) {
        AppliedOneMore(After(before), Applied(KeyOf(run[last].input), Command(run[last].input)), After(run), key, "");
      } else {
        SameLog(After(before), After(run), key, "");
      }
      assert TookEffectAt(run, last, key) <==> KeyOf(run[last].input) == key && TookEffect(After(before), run[last]);
    }
  }

  lemma SameLog(db: Database, next: Database, key: Key, command: string)
    requires next.applied == db.applied
    ensures AppliedBy(next, key) == AppliedBy(db, key) && IsApplied(next, command) == IsApplied(db, command)
  {
  }

  /** A command has taken effect exactly if some attempt that sends it reached the store. */
  lemma {:induction false} CommandExactly(run: seq<Attempt>, command: string)
    ensures IsApplied(After(run), command) <==> exists i | 0 <= i < |run| :: SentAt(run, i, command)
  {
    if run != [] {
      hide AttemptStep, ReachesStore, CommandText, IsApplied;
      var last := |run| - 1;
      var before := run[..last];
      var attempt := run[last];
      CommandExactly(before, command);
      forall i | 0 <= i < last ensures SentAt(run, i, command) <==> SentAt(before, i, command) {
        assert before[..i] == run[..i] && before[i] == run[i];
      }
      AttemptApplies(After(before), attempt);
      if TookEffect(After(before), attempt) {
        AppliedOneMore(After(before), Applied(KeyOf(attempt.input), Command(attempt.input)), After(run),
                       KeyOf(attempt.input), command);
      } else {
        SameLog(After(before), After(run), KeyOf(attempt.input), command);
      }
      assert SentAt(run, last, command) <==> Command(attempt.input) == command && ReachesStore(After(before), attempt);
    }
  }

  /** The success of an attempt whose command reached the store is not recorded: its answer is lost or too
      long, the process dies, or the last mark is not kept. */
  predicate LosesSuccess(world: World) {
    !world.store.Works? || world.answer.bytes > MAXIMUM_RESULT_BYTES || !world.succeeded.Commits()
  }

  lemma KeptSuccess(db: Database, attempt: Attempt)
    requires ReachesStore(db, attempt) && !LosesSuccess(attempt.world)
    ensures var next := AttemptStep(db, attempt.input, attempt.world).0;
            KeyOf(attempt.input) in next.rows && next.rows[KeyOf(attempt.input)].status == Succeeded
  {
    hide CommandText, Matches, IsApplied;
  }

  /** A call recorded as denied or failed has taken effect all the same exactly if some attempt of it took
      effect and its success was not recorded. */
  lemma EndedWithEffectExactly(run: seq<Attempt>, key: Key)
    requires key in After(run).rows && After(run).rows[key].status in {Denied, Failed}
    ensures AppliedBy(After(run), key) <==>
            exists i | 0 <= i < |run| :: TookEffectAt(run, i, key) && LosesSuccess(run[i].world)
  {
    hide After, AppliedBy, TookEffect, LosesSuccess;
    EffectExactly(run, key);
    forall i | 0 <= i < |run| && TookEffectAt(run, i, key) ensures LosesSuccess(run[i].world) {
      SuccessIsLost(run, i, key);
    }
  }

  lemma SuccessIsLost(run: seq<Attempt>, i: nat, key: Key)
    requires i < |run| && TookEffectAt(run, i, key)
    requires key in After(run).rows && After(run).rows[key].status in {Denied, Failed}
    ensures LosesSuccess(run[i].world)
  {
    hide AttemptStep, AppliedBy, ReachesStore, LosesSuccess, Command;
    if !LosesSuccess(run[i].world) {
      KeptSuccess(After(run[..i]), run[i]);
      assert run[..i + 1][..i] == run[..i];
      EndedIsFinal(run, i + 1, key);
    }
  }

  const TRANQUIL := World(Passes, Works, Passes, Reauthorized("f", "a"), Works, Works, Passes, Passes, Works,
                          Payload(3, 60, 0), Works, Works)

  const UPDATE := Input("c", "e", 1, "t", "r", "i", "p", "registration_update", "f")

  lemma FirstAttemptDies(world: World) returns (db: Database)
    requires world == TRANQUIL.(succeeded := Dies)
    ensures db == AttemptStep(EMPTY, UPDATE, world).0
    ensures db.rows == map[KeyOf(UPDATE) := NewRow(UPDATE).(status := Allowed)]
    ensures db.applied == [Applied(KeyOf(UPDATE), Command(UPDATE))]
  {
    hide CommandText;
    db := AttemptStep(EMPTY, UPDATE, world).0;
    assert Executable(UPDATE.functionName) by {
      assert "registration_update" in ["registration_read", "registration_update"];
    }
    assert !IsApplied(EMPTY, Command(UPDATE));
  }

  /** The store keeps a command, the process dies before the success is recorded, and the retry no
      longer finds its evidence valid: the audit says that the call failed, although it took effect. */
  lemma FailedAfterEffect() returns (run: seq<Attempt>)
    ensures |run| == 2 && KeyOf(UPDATE) in After(run).rows
    ensures After(run).rows[KeyOf(UPDATE)].status == Failed && AppliedBy(After(run), KeyOf(UPDATE))
  {
    hide CommandText, Executable;
    var dying, refusing := TRANQUIL.(succeeded := Dies), TRANQUIL.(evidence := Refuses);
    run := [Attempt(UPDATE, dying), Attempt(UPDATE, refusing)];
    var db := FirstAttemptDies(dying);
    assert run[..1][..0] == [] && run[..1] == [Attempt(UPDATE, dying)];
    assert After(run[..1]) == db;
    assert After(run).applied[0].sender == KeyOf(UPDATE);
  }

  /** Likewise a retry that is refused because a human has taken over meanwhile. */
  lemma DeniedAfterEffect() returns (run: seq<Attempt>)
    ensures |run| == 2 && KeyOf(UPDATE) in After(run).rows
    ensures After(run).rows[KeyOf(UPDATE)].status == Denied && AppliedBy(After(run), KeyOf(UPDATE))
  {
    hide CommandText, Executable;
    var dying, refusing := TRANQUIL.(succeeded := Dies), TRANQUIL.(control := Refuses);
    run := [Attempt(UPDATE, dying), Attempt(UPDATE, refusing)];
    var db := FirstAttemptDies(dying);
    assert run[..1][..0] == [] && run[..1] == [Attempt(UPDATE, dying)];
    assert After(run[..1]) == db;
    assert After(run).applied[0].sender == KeyOf(UPDATE);
  }

  // ----- the text behind a command id -----

  lemma SplitFirst(a: string, x: string, b: string, y: string)
    requires ':' !in a && ':' !in b && a + ":" + x == b + ":" + y
    ensures a == b && x == y
  {
    var s := a + ":" + x;
    assert s[|a|] == ':' && s[|b|] == ':';
    assert |a| == |b|;
    assert a == s[..|a|] && b == s[..|b|];
    assert x == s[|a| + 1..] && y == s[|b| + 1..];
  }

  lemma SplitLast(x: string, a: string, y: string, b: string)
    requires ':' !in a && ':' !in b && x + ":" + a == y + ":" + b
    ensures a == b && x == y
  {
    var s := x + ":" + a;
    assert s[|x|] == ':' && s[|y|] == ':';
    assert |x| == |y|;
    assert x == s[..|x|] && y == s[..|y|];
    assert a == s[|x| + 1..] && b == s[|y| + 1..];
  }

  /** No colon in the ids of the company and the execution, which the database makes, nor in the digest;
      nothing is asked of the provider's call id. */
  predicate ColonFree(input: Input) {
    ':' !in input.companyId && ':' !in input.executionId && ':' !in input.fingerprint
  }

  /** Two executable calls have the same command text only if they agree in all five parts, whatever
      the provider puts into its call ids. */
  lemma CommandTextSeparates(a: Input, b: Input)
    requires Executable(a.functionName) && Executable(b.functionName) && ColonFree(a) && ColonFree(b)
    requires Command(a) == Command(b)
    ensures a.companyId == b.companyId && a.executionId == b.executionId && a.providerCallId == b.providerCallId
    ensures a.functionName == b.functionName && a.fingerprint == b.fingerprint
  {
    NamesHaveNoColon(a.functionName);
    NamesHaveNoColon(b.functionName);
    hide Executable;
    SplitLast(a.companyId + ":" + a.executionId + ":" + a.providerCallId + ":" + a.functionName, a.fingerprint,
              b.companyId + ":" + b.executionId + ":" + b.providerCallId + ":" + b.functionName, b.fingerprint);
    SplitLast(a.companyId + ":" + a.executionId + ":" + a.providerCallId, a.functionName,
              b.companyId + ":" + b.executionId + ":" + b.providerCallId, b.functionName);
    assert a.companyId + ":" + (a.executionId + ":" + a.providerCallId) ==
           a.companyId + ":" + a.executionId + ":" + a.providerCallId;
    assert b.companyId + ":" + (b.executionId + ":" + b.providerCallId) ==
           b.companyId + ":" + b.executionId + ":" + b.providerCallId;
    SplitFirst(a.companyId, a.executionId + ":" + a.providerCallId, b.companyId, b.executionId + ":" + b.providerCallId);
    SplitFirst(a.executionId, a.providerCallId, b.executionId, b.providerCallId);
  }

  lemma NamesHaveNoColon(functionName: string)
    requires Executable(functionName)
    ensures ':' !in functionName
  {
  }
}

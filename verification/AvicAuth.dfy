/** The token cache of the Avic client: every segment between two awaits is one step, and the steps
    of concurrent calls interleave freely. */
module AvicAuth {
  import opened Prelude

  type Token = int

  const MARGIN_MS := 30_000
  const COOLDOWN_MS := 30_000

  datatype ErrorCode = Configuration | Authentication | Unavailable | InvalidResponse

  datatype Access = Access(token: Token, expiresAt: int)

  datatype Failure = Failure(until: int, code: ErrorCode, retryable: bool)

  /** The pending promise: the login is running, or it has settled and its starter has not resumed yet. */
  datatype Pending = InFlight | Settled

  datatype State = State(access: Option<Access>, pending: Option<Pending>, failure: Option<Failure>)

  const FRESH := State(None, None, None)

  /** What the server answered: a token with the deadlines that could be parsed, or any refusal. */
  datatype Response =
    | Granted(token: Token, jwtExpiration: Option<int>, expiration: Option<int>)
    | Refused(code: ErrorCode, retryable: bool)

  /** What a call of `token()` does before its first await. */
  datatype TokenOutcome = Cached(token: Token) | Joined | CoolingDown(code: ErrorCode, retryable: bool) | Started

  function TokenStep(s: State, now: int): (State, TokenOutcome) {
    if s.access.Some? && s.access.value.expiresAt > now + MARGIN_MS then (s, Cached(s.access.value.token))
    else if s.pending.Some? then (s, Joined)
    else if s.failure.Some? && s.failure.value.until > now then
      (s, CoolingDown(s.failure.value.code, s.failure.value.retryable))
    else (s.(access := None, pending := Some(InFlight)), Started)
  }

  /** The earliest known deadline. */
  function Deadline(jwt: Option<int>, expiration: Option<int>): Option<int> {
    match (jwt, expiration)
    case (Some(a), Some(b)) => Some(if a <= b then a else b)
    case (Some(a), None) => Some(a)
    case (None, b) => b
  }

  /** The end of a login: the token is cached, or the failure starts a cooldown. */
  function FinishStep(s: State, now: int, response: Response): State {
    match LoginResult(now, response)
    case Granted(token, jwt, expiration) =>
      s.(access := Some(Access(token, Deadline(jwt, expiration).value)), failure := None, pending := Some(Settled))
    case Refused(code, retryable) =>
      s.(failure := Some(Failure(now + COOLDOWN_MS, code, retryable)), pending := Some(Settled))
  }

  /** A grant without a deadline, or about to expire, counts as refused. */
  function LoginResult(now: int, response: Response): (r: Response)
    ensures r.Granted? ==> r == response && Deadline(r.jwtExpiration, r.expiration).Some?
  {
    match response
    case Refused(_, _) => response
    case Granted(_, jwt, expiration) =>
      match Deadline(jwt, expiration)
      case None => Refused(Configuration, false)
      case Some(expiresAt) => if expiresAt <= now + MARGIN_MS then Refused(Authentication, false) else response
  }

  function InvalidateStep(s: State, now: int, token: Token, rejectedAfterLogin: bool): State {
    if s.access.None? || s.access.value.token != token then s
    else
      s.(access := None,
         failure := if rejectedAfterLogin then Some(Failure(now + COOLDOWN_MS, Authentication, false)) else s.failure)
  }

  // ----- the object -----

  class PasswordAuthentication {
    var access: Option<Access>
    var pending: Option<Pending>
    var failure: Option<Failure>

    constructor ()
      ensures Now() == FRESH
    {
      access, pending, failure := None, None, None;
    }

    function Now(): State
      reads this
    {
      State(access, pending, failure)
    }

    /** `token()` up to its first await. */
    method GetToken(now: int) returns (outcome: TokenOutcome)
      modifies this
      ensures (Now(), outcome) == TokenStep(old(Now()), now)
    {
      if access.Some? && access.value.expiresAt > now + MARGIN_MS {
        return Cached(access.value.token);
      }
      if pending.Some? {
        return Joined;
      }
      if failure.Some? && failure.value.until > now {
        return CoolingDown(failure.value.code, failure.value.retryable);
      }
      access := None;
      pending := Some(InFlight);
      return Started;
    }

    /** The last segment of `login()`. */
    method FinishLogin(now: int, response: Response)
      requires pending == Some(InFlight)
      modifies this
      ensures Now() == FinishStep(old(Now()), now, response)
    {
      var result := response;
      if response.Granted? {
        var deadline := Deadline(response.jwtExpiration, response.expiration);
        if deadline.None? {
          result := Refused(Configuration, false);
        } else if deadline.value <= now + MARGIN_MS {
          result := Refused(Authentication, false);
        } else {
          access := Some(Access(response.token, deadline.value));
          failure := None;
        }
      }
      if result.Refused? {
        failure := Some(Failure(now + COOLDOWN_MS, result.code, result.retryable));
      }
      pending := Some(Settled);
    }

    /** The `finally` of the call that started the login. */
    method ClearPending()
      requires pending == Some(Settled)
      modifies this
      ensures Now() == old(Now()).(pending := None)
    {
      pending := None;
    }

    method Invalidate(token: Token, rejectedAfterLogin: bool, now: int)
      modifies this
      ensures Now() == InvalidateStep(old(Now()), now, token, rejectedAfterLogin)
    {
      if access.None? || access.value.token != token {
        return;
      }
      access := None;
      if rejectedAfterLogin {
        failure := Some(Failure(now + COOLDOWN_MS, Authentication, false));
      }
    }
  }

  // ----- runs -----

  /** One step of some call, at a time. */
  datatype Step =
    | CallToken(at: int)
    | EndLogin(at: int, response: Response)
    | Resume(at: int)
    | Reject(at: int, token: Token, rejectedAfterLogin: bool)

  /** A login ends only while it runs, and its starter resumes only once it has settled. */
  predicate Enabled(s: State, step: Step) {
    match step
    case EndLogin(_, _) => s.pending == Some(InFlight)
    case Resume(_) => s.pending == Some(Settled)
    case _ => true
  }

  function Take(s: State, step: Step): State {
    match step
    case CallToken(now) => TokenStep(s, now).0
    case EndLogin(now, response) => FinishStep(s, now, response)
    case Resume(_) => s.(pending := None)
    case Reject(now, token, after) => InvalidateStep(s, now, token, after)
  }

  /** The state after a run. */
  function After(run: seq<Step>): State {
    if run == [] then FRESH else Take(After(run[..|run| - 1]), run[|run| - 1])
  }

  /** Every step was possible when it was taken, and the clock does not go back. */
  predicate IsRun(run: seq<Step>) {
    run == [] ||
    (var last := |run| - 1;
     && IsRun(run[..last])
     && Enabled(After(run[..last]), run[last])
     && (last > 0 ==> run[last - 1].at <= run[last].at))
  }

  /** The step at `i` starts a login. */
  predicate StartsLogin(run: seq<Step>, i: nat)
    requires i < |run|
  {
    run[i].CallToken? && TokenStep(After(run[..i]), run[i].at).1 == Started
  }

  /** The step at `i` starts a cooldown: a login failed, or a fresh token was rejected. */
  predicate StartsCooldown(run: seq<Step>, i: nat)
    requires i < |run|
  {
    match run[i]
    case EndLogin(now, response) => LoginResult(now, response).Refused?
    case Reject(_, token, after) =>
      after && After(run[..i]).access.Some? && After(run[..i]).access.value.token == token
    case _ => false
  }

  lemma {:induction false} Prefix(run: seq<Step>, n: nat)
    requires IsRun(run) && n <= |run|
    ensures IsRun(run[..n])
  {
    if n < |run| {
      Prefix(run[..|run| - 1], n);
      assert run[..|run| - 1][..n] == run[..n];
    } else {
      assert run[..n] == run;
    }
  }

  lemma {:induction false} ClockAdvances(run: seq<Step>, i: nat, j: nat)
    requires IsRun(run) && i <= j < |run|
    ensures run[i].at <= run[j].at
  {
    if i < j {
      Prefix(run, j + 1);
      ClockAdvances(run, i, j - 1);
      assert run[..j + 1][j - 1] == run[j - 1];
    }
  }

  lemma LastStep(run: seq<Step>) returns (before: seq<Step>, step: Step)
    requires IsRun(run) && run != []
    ensures IsRun(before) && run == before + [step] && |run| == |before| + 1
    ensures Enabled(After(before), step) && After(run) == Take(After(before), step)
    ensures before != [] ==> before[|before| - 1].at <= step.at
  {
    before, step := run[..|run| - 1], run[|run| - 1];
  }

  /** While a login runs nothing is cached. */
  lemma {:induction false} NothingCachedInFlight(run: seq<Step>)
    requires IsRun(run)
    ensures After(run).pending == Some(InFlight) ==> After(run).access == None
  {
    if run != [] {
      Prefix(run, |run| - 1);
      NothingCachedInFlight(run[..|run| - 1]);
    }
  }

  function LoginsStarted(run: seq<Step>): nat {
    if run == [] then 0
    else LoginsStarted(run[..|run| - 1]) + if StartsLogin(run, |run| - 1) then 1 else 0
  }

  function LoginsEnded(run: seq<Step>): nat {
    if run == [] then 0 else LoginsEnded(run[..|run| - 1]) + if run[|run| - 1].EndLogin? then 1 else 0
  }

  /** In every interleaving the logins started and not yet ended are exactly the one that is pending,
      if any: never two at once. */
  lemma {:induction false} SingleFlight(run: seq<Step>)
    requires IsRun(run)
    ensures LoginsStarted(run) == LoginsEnded(run) + if After(run).pending == Some(InFlight) then 1 else 0
  {
    if run != [] {
      SingleFlight(run[..|run| - 1]);
    }
  }

  /** One step keeps a cooldown that runs until `end`. */
  predicate Cooling(s: State, now: int, end: int) {
    && (now >= end || (s.failure.Some? && s.failure.value.until >= end))
    && (s.pending == Some(InFlight) ==> now >= end)
  }

  lemma StepKeepsCooling(s: State, step: Step, before: int, end: int)
    requires Enabled(s, step) && Cooling(s, before, end) && before <= step.at && end <= before + COOLDOWN_MS
    ensures Cooling(Take(s, step), step.at, end)
  {
  }

  lemma {:induction false} CooldownStands(run: seq<Step>, i: nat)
    requires IsRun(run) && i < |run| && StartsCooldown(run, i)
    ensures Cooling(After(run), run[|run| - 1].at, run[i].at + COOLDOWN_MS)
    decreases |run|
  {
    hide After, IsRun, Enabled, TokenStep;
    var before, step := LastStep(run);
    if i < |before| {
      hide Take, Cooling;
      assert run[..i] == before[..i];
      CooldownStands(before, i);
      ClockAdvances(before, i, |before| - 1);
      StepKeepsCooling(After(before), step, before[|before| - 1].at, run[i].at + COOLDOWN_MS);
    } else {
      assert run[..i] == before;
      NothingCachedInFlight(before);
    }
  }

  /** No login starts during a cooldown: not within 30 seconds of any failed login or of any rejection
      of a freshly granted token, whatever happens in between. */
  lemma NoLoginInCooldown(run: seq<Step>, i: nat, j: nat)
    requires IsRun(run) && i < j < |run| && StartsCooldown(run, i) && StartsLogin(run, j)
    ensures run[j].at >= run[i].at + COOLDOWN_MS
  {
    Prefix(run, j);
    assert run[..j][..i] == run[..i];
    assert StartsCooldown(run[..j], i);
    CooldownStands(run[..j], i);
    ClockAdvances(run, j - 1, j);
  }

  /** The step at `i` is a login that was granted the access. */
  predicate Grants(run: seq<Step>, i: nat, access: Access)
    requires i < |run|
  {
    match run[i]
    case EndLogin(now, response) =>
      LoginResult(now, response).Granted? &&
      access == Access(response.token, Deadline(response.jwtExpiration, response.expiration).value)
    case _ => false
  }

  lemma {:induction false} CachedWasGranted(run: seq<Step>) returns (i: nat)
    requires IsRun(run) && After(run).access.Some?
    ensures i < |run| && Grants(run, i, After(run).access.value)
  {
    var last := |run| - 1;
    Prefix(run, last);
    i := last;
    if !run[last].EndLogin? || LoginResult(run[last].at, run[last].response).Refused? {
      i := CachedWasGranted(run[..last]);
    }
  }

  /** A token served from the cache was granted by a login of the run, and every deadline that login
      made known is still more than 30 seconds away. */
  lemma ServedTokenIsFresh(run: seq<Step>, j: nat) returns (i: nat)
    requires IsRun(run) && j < |run| && run[j].CallToken?
    requires TokenStep(After(run[..j]), run[j].at).1.Cached?
    ensures i < j && run[i].EndLogin? && run[i].response.Granted?
    ensures TokenStep(After(run[..j]), run[j].at).1 == Cached(run[i].response.token)
    ensures run[i].response.jwtExpiration.Some? ==> run[i].response.jwtExpiration.value > run[j].at + MARGIN_MS
    ensures run[i].response.expiration.Some? ==> run[i].response.expiration.value > run[j].at + MARGIN_MS
  {
    hide After, IsRun;
    Prefix(run, j);
    i := CachedWasGranted(run[..j]);
  }

  // ----- calls that wait for a login -----

  /** No login starts or ends at a step from `from` up to `to`. */
  predicate NoLoginStep(run: seq<Step>, from: nat, to: nat)
    requires to <= |run|
  {
    forall k | from <= k < to :: !StartsLogin(run, k) && !run[k].EndLogin?
  }

  /** The login started at step `b` ends at step `e`, the next one that starts or ends any. */
  predicate IsLogin(run: seq<Step>, b: nat, e: nat)
    requires e < |run|
  {
    b < e && StartsLogin(run, b) && run[e].EndLogin? && NoLoginStep(run, b + 1, e)
  }

  /** The login started at step `b` has not ended. */
  predicate IsOpenLogin(run: seq<Step>, b: nat)
    requires b < |run|
  {
    StartsLogin(run, b) && NoLoginStep(run, b + 1, |run|)
  }

  lemma SameLoginSteps(run: seq<Step>, n: nat, from: nat, to: nat)
    requires to <= n <= |run|
    ensures NoLoginStep(run[..n], from, to) == NoLoginStep(run, from, to)
    ensures forall k | 0 <= k < n :: StartsLogin(run[..n], k) == StartsLogin(run, k) && run[..n][k] == run[k]
  {
    hide After, TokenStep;
    forall k | 0 <= k < n ensures StartsLogin(run[..n], k) == StartsLogin(run, k) && run[..n][k] == run[k] {
      assert run[..n][..k] == run[..k];
    }
  }

  /** The pending promise is that of the login started last. */
  lemma {:induction false} PendingHasLogin(run: seq<Step>) returns (b: nat, e: nat)
    requires IsRun(run) && After(run).pending.Some?
    ensures b < |run| && (forall k | b < k < |run| :: !StartsLogin(run, k))
    ensures After(run).pending == Some(InFlight) ==> IsOpenLogin(run, b)
    ensures After(run).pending == Some(Settled) ==> e < |run| && IsLogin(run, b, e)
  {
    hide After, IsRun, StartsLogin;
    NothingPendingFirst(run);
    var last := |run| - 1;
    var before, step := LastStep(run);
    StepPends(After(before), step);
    StartsHere(run);
    assert run[..last] == before && run[last] == step;
    if StartsLogin(run, last) {
      b, e := last, 0;
    } else {
      b, e := PendingHasLogin(before);
      SameLoginSteps(run, last, b + 1, last);
      if step.EndLogin? {
        e := last;
      } else if After(before).pending == Some(Settled) {
        SameLoginSteps(run, last, b + 1, e);
      }
    }
  }

  lemma NothingPendingFirst(run: seq<Step>)
    requires After(run).pending.Some?
    ensures run != []
  {
  }

  lemma StartsHere(run: seq<Step>)
    requires run != []
    ensures var before, step := run[..|run| - 1], run[|run| - 1];
            StartsLogin(run, |run| - 1) <==> step.CallToken? && TokenStep(After(before), step.at).1 == Started
  {
  }

  /** What one step does to the pending promise. */
  lemma StepPends(s: State, step: Step)
    requires Enabled(s, step)
    ensures if step.CallToken? && TokenStep(s, step.at).1 == Started then
              s.pending.None? && Take(s, step).pending == Some(InFlight)
            else if step.EndLogin? then s.pending == Some(InFlight) && Take(s, step).pending == Some(Settled)
            else if step.Resume? then Take(s, step).pending.None?
            else Take(s, step).pending == s.pending
  {
  }

  /** A login in flight after `n` steps ends at the next step that starts or ends any, if there is one. */
  lemma {:induction false} FlightEnds(run: seq<Step>, n: nat) returns (e: Option<nat>)
    requires IsRun(run) && n <= |run| && After(run[..n]).pending == Some(InFlight)
    ensures e.None? ==> After(run).pending == Some(InFlight) && NoLoginStep(run, n, |run|)
    ensures e.Some? ==> n <= e.value < |run| && run[e.value].EndLogin? && NoLoginStep(run, n, e.value)
    decreases |run|
  {
    hide After, IsRun, StartsLogin;
    if n == |run| {
      assert run[..n] == run;
      e := None;
    } else {
      var last := |run| - 1;
      var before, step := LastStep(run);
      assert run[..last] == before && run[last] == step && before[..n] == run[..n];
      e := FlightEnds(before, n);
      SameLoginSteps(run, last, n, if e.Some? then e.value else last);
      if e.None? {
        StepPends(After(before), step);
        StartsHere(run);
        if step.EndLogin? {
          e := Some(last);
        }
      }
    }
  }

  /** A login that is granted caches its token, which is more than 30 seconds away from every known deadline. */
  lemma GrantedIsFresh(run: seq<Step>, e: nat)
    requires IsRun(run) && e < |run| && run[e].EndLogin? && LoginResult(run[e].at, run[e].response).Granted?
    ensures run[e].response.Granted?
    ensures After(run[..e + 1]).access.Some? && After(run[..e + 1]).access.value.token == run[e].response.token
    ensures run[e].response.jwtExpiration.Some? ==> run[e].response.jwtExpiration.value > run[e].at + MARGIN_MS
    ensures run[e].response.expiration.Some? ==> run[e].response.expiration.value > run[e].at + MARGIN_MS
  {
    assert run[..e + 1][..e] == run[..e];
  }

  /** A call that starts a login, or joins one, waits for the login that was started last, and for no other:
      it is still in flight, or has ended, and then its result is what the call gets. A token handed out
      in this way was granted by that very login, was cached when the login ended, and then had more than
      30 seconds left before every deadline the login made known. */
  lemma WaiterGetsItsLogin(run: seq<Step>, j: nat) returns (b: nat, e: nat)
    requires IsRun(run) && j < |run| && run[j].CallToken?
    requires TokenStep(After(run[..j]), run[j].at).1 in {Started, Joined}
    ensures b <= j && StartsLogin(run, b) && (forall k | b < k <= j :: !StartsLogin(run, k))
    ensures IsOpenLogin(run, b) || (e < |run| && IsLogin(run, b, e))
    ensures !IsOpenLogin(run, b) && LoginResult(run[e].at, run[e].response).Granted? ==>
              && run[e].response.Granted?
              && After(run[..e + 1]).access.Some?
              && After(run[..e + 1]).access.value.token == run[e].response.token
              && (run[e].response.jwtExpiration.Some? ==> run[e].response.jwtExpiration.value > run[e].at + MARGIN_MS)
              && (run[e].response.expiration.Some? ==> run[e].response.expiration.value > run[e].at + MARGIN_MS)
  {
    hide After, IsRun, StartsLogin, LoginResult;
    var first := run[..j + 1];
    Prefix(run, j + 1);
    assert first[..j] == run[..j] && first[j] == run[j];
    WaitingIsPending(first);
    b, e := PendingHasLogin(first);
    SameLoginSteps(run, j + 1, b + 1, j + 1);
    var pending := After(first).pending.value;
    assert pending == InFlight || pending == Settled;
    if After(first).pending == Some(InFlight) {
      var end := FlightEnds(run, j + 1);
      if end.Some? {
        e := end.value;
        assert NoLoginStep(run, b + 1, e);
      } else {
        assert NoLoginStep(run, b + 1, |run|);
      }
    } else {
      SameLoginSteps(run, j + 1, b + 1, e);
    }
    if !IsOpenLogin(run, b) && LoginResult(run[e].at, run[e].response).Granted? {
      GrantedIsFresh(run, e);
    }
  }

  lemma WaitingIsPending(run: seq<Step>)
    requires IsRun(run) && run != [] && run[|run| - 1].CallToken?
    requires TokenStep(After(run[..|run| - 1]), run[|run| - 1].at).1 in {Started, Joined}
    ensures After(run).pending.Some?
  {
  }

  /** Nobody rejects this token from `from` on, and it does not come near its end. */
  predicate LeftAlone(run: seq<Step>, from: nat, access: Access) {
    forall k | from <= k < |run| ::
      run[k].at + MARGIN_MS < access.expiresAt && !(run[k].Reject? && run[k].token == access.token)
  }

  lemma StepKeepsAccess(s: State, step: Step, access: Access)
    requires Enabled(s, step) && s.access == Some(access) && s.pending != Some(InFlight)
    requires step.at + MARGIN_MS < access.expiresAt && !(step.Reject? && step.token == access.token)
    ensures Take(s, step).access == Some(access)
    ensures step.CallToken? ==> TokenStep(s, step.at).1 == Cached(access.token)
  {
  }

  /** A cached token survives every rejection of other tokens: until it is rejected itself or nears
      its deadline it stays cached, and every call is served with it. */
  lemma {:induction false} NewerTokenSurvives(run: seq<Step>, from: nat, access: Access)
    requires IsRun(run) && from <= |run| && After(run[..from]).access == Some(access) && LeftAlone(run, from, access)
    ensures After(run).access == Some(access)
    ensures forall k | from <= k < |run| && run[k].CallToken? ::
              TokenStep(After(run[..k]), run[k].at).1 == Cached(access.token)
    decreases |run|
  {
    hide After, IsRun, Take, TokenStep, Enabled;
    if from < |run| {
      var before, step := LastStep(run);
      assert run[..from] == before[..from];
      assert forall k | from <= k < |before| :: before[k] == run[k];
      NewerTokenSurvives(before, from, access);
      NothingCachedInFlight(before);
      assert run[|before|] == step;
      StepKeepsAccess(After(before), step, access);
      forall k | from <= k < |run| && run[k].CallToken?
        ensures TokenStep(After(run[..k]), run[k].at).1 == Cached(access.token)
      {
        assert run[..k] == before[..k];
        assert k == |before| ==> before[..k] == before;
      }
    } else {
      assert run[..from] == run;
    }
  }
}

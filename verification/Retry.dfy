/** The retry engine: `retryBundle`, `finalizeFetchError` and `classifyAttempt`. */
module Retry {
  import opened Common
  import opened Failures
  import opened Registry

  /** The outcome of the select before a later attempt: the delay elapsed, or the parent context was done. When
      both are ready either may be chosen. */
  datatype Pause = Elapsed | CutShort(err: ContextError)

  /** One turn of the loop as the environment plays it: the pause before the attempt (looked at only from the second
      attempt on and with a positive delay), the attempt's return value, and what `ctx.Err()` answers after it. */
  datatype Turn = Turn(pause: Pause, result: AttemptValue, after: Option<ContextError>)

  /** `BundleResult` together with the error returned beside it. */
  datatype FetchResult = FetchResult(
    bundles: seq<Bundle>, digest: Option<Digest>, attempts: nat, trail: seq<AttemptOutcome>, err: Option<FetchFailure>)

  function ClassifyAttempt(v: AttemptValue): AttemptOutcome
    requires !v.Fetched?
  {
    match v
    case Structured(f) => AttemptOutcome(if f.kind == Unset then Unknown else f.kind, f.step)
    case Unstructured(raw) => AttemptOutcome(ClassifyTransport(raw).0, NoStep)
  }

  predicate AllFailed(ts: seq<Turn>) {
    forall i :: 0 <= i < |ts| ==> !ts[i].result.Fetched?
  }

  /** The classification of every attempt, oldest first. */
  function Trail(ts: seq<Turn>): (t: seq<AttemptOutcome>)
    requires AllFailed(ts)
    ensures |t| == |ts|
    ensures forall i :: 0 <= i < |ts| ==> t[i] == ClassifyAttempt(ts[i].result)
  {
    if ts == [] then [] else Trail(ts[..|ts| - 1]) + [ClassifyAttempt(ts[|ts| - 1].result)]
  }

  function Failing(attempts: nat, f: FetchFailure): FetchResult {
    FetchResult([], None, attempts, [], Some(f))
  }

  function ContextFailure(step: Step, err: ContextError, attempts: nat, trail: seq<AttemptOutcome>): FetchFailure {
    FetchFailure(step, KindFromContext(err), attempts, trail, 0, false, FromContext(err))
  }

  function StepOf(v: AttemptValue): Step {
    if v.Structured? then v.failure.step else NoStep
  }

  /** The error returned when no turn is left: the last attempt's, completed with the number of attempts and the
      trail, or a wrapping of it; a fixed error when there was no attempt. */
  function Finished(last: Option<AttemptValue>, attempts: nat, trail: seq<AttemptOutcome>): FetchFailure
    requires last.Some? ==> !last.value.Fetched?
  {
    match last
    case None => FetchFailure(NoStep, Unknown, 0, [], 0, false, NoAttempts)
    case Some(Structured(f)) => f.(attempts := attempts, trail := trail)
    case Some(Unstructured(raw)) =>
      var (kind, code) := ClassifyTransport(raw);
      FetchFailure(NoStep, kind, attempts, trail, code, true, FromRaw(raw))
  }

  function Finalize(ts: seq<Turn>): FetchFailure
    requires AllFailed(ts)
  {
    Finished(if ts == [] then None else Some(ts[|ts| - 1].result), |ts|, Trail(ts))
  }

  predicate IsFatal(v: AttemptValue) {
    v.Structured? && !v.failure.recoverable
  }

  /** What turn `i` returns when the fetch stops there, given the trail before it: at a cut pause, a success, a
      non-recoverable error or a done parent context. */
  function StopsAt(delayed: bool, t: Turn, i: nat, trail: seq<AttemptOutcome>): Option<FetchResult> {
    if i > 0 && delayed && t.pause.CutShort? then Some(Failing(i, ContextFailure(NoStep, t.pause.err, i, trail)))
    else
      var v := t.result;
      if v.Fetched? then Some(FetchResult(v.bundles, v.digest, i + 1, trail, None))
      else
        var trail' := trail + [ClassifyAttempt(v)];
        if IsFatal(v) then Some(Failing(i + 1, v.failure.(attempts := i + 1, trail := trail')))
        else if t.after.Some? then Some(Failing(i + 1, ContextFailure(StepOf(v), t.after.value, i + 1, trail')))
        else None
  }

  /** The fetch from turn `i` on, the turns before it having failed: it stops at the first turn that stops, or
      after the last one. */
  function RetryFrom(delayed: bool, ts: seq<Turn>, i: nat): (r: FetchResult)
    requires i <= |ts| && AllFailed(ts[..i])
    ensures i <= r.attempts <= |ts|
    decreases |ts| - i
  {
    if i == |ts| then assert ts[..i] == ts; Failing(i, Finalize(ts))
    else match StopsAt(delayed, ts[i], i, Trail(ts[..i]))
      case Some(r) => r
      case None => RetryFrom(delayed, ts, i + 1)
  }

  /** The turns the loop may take: none when `maxAttempts` is below one. */
  function Budget(maxAttempts: int): nat {
    if maxAttempts < 0 then 0 else maxAttempts
  }

  function RetryBundleSpec(maxAttempts: int, delayed: bool, ts: seq<Turn>): (r: FetchResult)
    requires maxAttempts <= |ts|
    ensures r.attempts <= Budget(maxAttempts)
  {
    RetryFrom(delayed, ts[..Budget(maxAttempts)], 0)
  }

  // ---- The loop ----

  /** The attempt function handed to `retryBundle`: the registry fetch, or any other one. */
  datatype Attempt = FromRegistry(script: Script) | Stub(ret: AttemptReturn)

  datatype Round = Round(pause: Pause, attempt: Attempt, after: Option<ContextError>)

  ghost function AttemptView(retryThrottled: bool, a: Attempt): AttemptValue
    reads if a.Stub? && a.ret.GotFetchError? then {a.ret.fe} else {}
  {
    match a
    case FromRegistry(s) => DoBundle(retryThrottled, s)
    case Stub(ret) => ValueOf(ret)
  }

  ghost function RoundErrors(r: Round): set<FetchError> {
    if r.attempt.Stub? && r.attempt.ret.GotFetchError? then {r.attempt.ret.fe} else {}
  }

  /** `ts` is what the rounds amount to, and `errors` holds every error object they may return. */
  ghost predicate Plays(retryThrottled: bool, rounds: seq<Round>, ts: seq<Turn>, errors: set<FetchError>)
    reads errors
  {
    && |ts| == |rounds|
    && forall i :: 0 <= i < |rounds| ==>
         && RoundErrors(rounds[i]) <= errors
         && ts[i] == Turn(rounds[i].pause, AttemptView(retryThrottled, rounds[i].attempt), rounds[i].after)
  }

  lemma OneMoreFailure(ts: seq<Turn>, i: nat)
    requires i < |ts| && AllFailed(ts[..i]) && !ts[i].result.Fetched?
    ensures AllFailed(ts[..i + 1])
    ensures Trail(ts[..i + 1]) == Trail(ts[..i]) + [ClassifyAttempt(ts[i].result)]
  {
    assert ts[..i + 1] == ts[..i] + [ts[i]];
  }

  method RunAttempt(retryThrottled: bool, a: Attempt) returns (r: AttemptReturn)
    ensures ValueOf(r) == AttemptView(retryThrottled, a)
    ensures r.GotFetchError? ==> fresh(r.fe) || (a.Stub? && a.ret == r)
  {
    match a
    case FromRegistry(s) => r := DoBundleFromName(retryThrottled, s);
    case Stub(ret) => r := ret;
  }

  /** `finalizeFetchError`: a `FetchError` is completed in place, any other error is wrapped. */
  method FinalizeFetchError(last: Option<AttemptReturn>, attempts: nat, outcomes: seq<AttemptOutcome>)
    returns (fe: FetchError)
    requires last.Some? ==> !last.value.GotBundles?
    modifies if last.Some? && last.value.GotFetchError? then {last.value.fe} else {}
    ensures fe.Value() == Finished(if last.None? then None else Some(old(ValueOf(last.value))), attempts, outcomes)
    ensures if last.Some? && last.value.GotFetchError? then fe == last.value.fe else fresh(fe)
  {
    if last.None? {
      fe := new FetchError(FetchFailure(NoStep, Unknown, 0, [], 0, false, NoAttempts));
    } else if last.value.GotFetchError? {
      fe := last.value.fe;
      fe.attempts := attempts;
      fe.trail := outcomes;
    } else {
      var (kind, code) := ClassifyTransport(last.value.raw);
      fe := new FetchError(FetchFailure(NoStep, kind, attempts, outcomes, code, true, FromRaw(last.value.raw)));
    }
  }

  /** What the engine returns, its error as an object. */
  datatype Returned = Returned(
    bundles: seq<Bundle>, digest: Option<Digest>, attempts: nat, trail: seq<AttemptOutcome>, err: FetchError?)

  ghost function ResultOf(r: Returned): FetchResult
    reads r.err
  {
    FetchResult(r.bundles, r.digest, r.attempts, r.trail, if r.err == null then None else Some(r.err.Value()))
  }

  /** One turn of the loop: the returned value when the fetch stops here, else the failed attempt. */
  method TakeTurn(retryThrottled: bool, delay: int, round: Round, i: nat, outcomes: seq<AttemptOutcome>)
    returns (stop: Option<Returned>, ret: AttemptReturn, trail: seq<AttemptOutcome>)
    modifies RoundErrors(round)
    ensures var t := Turn(round.pause, old(AttemptView(retryThrottled, round.attempt)), round.after);
            match StopsAt(delay > 0, t, i, outcomes)
            case Some(r) =>
              && stop.Some? && ResultOf(stop.value) == r
              && (stop.value.err != null ==> fresh(stop.value.err) || stop.value.err in RoundErrors(round))
              && (forall e :: e in RoundErrors(round) && e != stop.value.err ==> unchanged(e))
            case None =>
              && stop.None? && unchanged(RoundErrors(round))
              && !ret.GotBundles? && ValueOf(ret) == t.result
              && (ret.GotFetchError? ==> fresh(ret.fe) || ret.fe in RoundErrors(round))
              && trail == outcomes + [ClassifyAttempt(t.result)]
  {
    ret, trail := GotBundles([], None), outcomes;
    if i > 0 && delay > 0 && round.pause.CutShort? {
      var err := new FetchError(ContextFailure(NoStep, round.pause.err, i, outcomes));
      stop := Some(Returned([], None, i, [], err));
      return;
    }
    ret := RunAttempt(retryThrottled, round.attempt);
    if ret.GotBundles? {
      stop := Some(Returned(ret.bundles, ret.digest, i + 1, outcomes, null));
      return;
    }
    var outcome := ClassifyReturn(ret);
    trail := outcomes + [outcome];
    if ret.GotFetchError? && !ret.fe.recoverable {
      ret.fe.attempts := i + 1;
      ret.fe.trail := trail;
      stop := Some(Returned([], None, i + 1, [], ret.fe));
      return;
    }
    if round.after.Some? {
      var step := if ret.GotFetchError? then ret.fe.step else NoStep;
      var err := new FetchError(ContextFailure(step, round.after.value, i + 1, trail));
      stop := Some(Returned([], None, i + 1, [], err));
      return;
    }
    stop := None;
  }

  /** The loop so far: `i` turns failed without stopping the fetch. */
  predicate Pending(delayed: bool, ts: seq<Turn>, i: nat, outcomes: seq<AttemptOutcome>) {
    && i <= |ts| && AllFailed(ts[..i])
    && RetryFrom(delayed, ts, 0) == RetryFrom(delayed, ts, i)
    && outcomes == Trail(ts[..i])
  }

  lemma PendingAdvances(delayed: bool, ts: seq<Turn>, i: nat, outcomes: seq<AttemptOutcome>)
    requires i < |ts| && Pending(delayed, ts, i, outcomes)
    ensures match StopsAt(delayed, ts[i], i, outcomes)
            case Some(r) => RetryFrom(delayed, ts, 0) == r
            case None =>
              && !ts[i].result.Fetched?
              && Pending(delayed, ts, i + 1, outcomes + [ClassifyAttempt(ts[i].result)])
  {
    if StopsAt(delayed, ts[i], i, outcomes).None? {
      OneMoreFailure(ts, i);
    }
  }

  lemma PendingAtTheEnd(delayed: bool, ts: seq<Turn>, outcomes: seq<AttemptOutcome>)
    requires Pending(delayed, ts, |ts|, outcomes)
    ensures AllFailed(ts) && outcomes == Trail(ts)
    ensures RetryFrom(delayed, ts, 0) == Failing(|ts|, Finalize(ts))
  {
    assert ts[..|ts|] == ts;
  }

  /** `last` is the return value of the attempt before turn `i`. */
  ghost predicate LastOf(ts: seq<Turn>, i: nat, last: Option<AttemptReturn>)
    requires i <= |ts|
    reads if last.Some? && last.value.GotFetchError? then {last.value.fe} else {}
  {
    if i == 0 then last.None? else last.Some? && !last.value.GotBundles? && ValueOf(last.value) == ts[i - 1].result
  }

  /** An error the engine may hand back: one of the attempts', or a new one. */
  twostate predicate Known(new e: FetchError, errors: set<FetchError>) {
    fresh(e) || e in errors
  }

  /** One turn of the loop, and where it leaves the loop. */
  method TakeNext(retryThrottled: bool, delay: int, rounds: seq<Round>, i: nat, outcomes: seq<AttemptOutcome>,
                  ghost ts: seq<Turn>, ghost errors: set<FetchError>)
    returns (stop: Option<Returned>, ret: AttemptReturn, trail: seq<AttemptOutcome>)
    requires Plays(retryThrottled, rounds, ts, errors) && i < |rounds| && Pending(delay > 0, ts, i, outcomes)
    modifies errors
    ensures stop.Some? ==> ResultOf(stop.value) == RetryFrom(delay > 0, ts, 0)
    ensures stop.Some? && stop.value.err != null ==> Known(stop.value.err, errors)
    ensures stop.Some? ==> forall e :: e in errors && e != stop.value.err ==> unchanged(e)
    ensures stop.None? ==> Pending(delay > 0, ts, i + 1, trail) && LastOf(ts, i + 1, Some(ret)) && unchanged(errors)
    ensures stop.None? && ret.GotFetchError? ==> Known(ret.fe, errors)
  {
    PendingAdvances(delay > 0, ts, i, outcomes);
    stop, ret, trail := TakeTurn(retryThrottled, delay, rounds[i], i, outcomes);
  }

  /** The loop: it stops at some turn, or every attempt fails. */
  method TakeTurns(retryThrottled: bool, delay: int, rounds: seq<Round>, ghost ts: seq<Turn>,
                   ghost errors: set<FetchError>)
    returns (stop: Option<Returned>, last: Option<AttemptReturn>, outcomes: seq<AttemptOutcome>)
    requires Plays(retryThrottled, rounds, ts, errors)
    modifies errors
    ensures stop.Some? ==> ResultOf(stop.value) == RetryFrom(delay > 0, ts, 0)
    ensures stop.Some? && stop.value.err != null ==> Known(stop.value.err, errors)
    ensures stop.Some? ==> forall e :: e in errors && e != stop.value.err ==> unchanged(e)
    ensures stop.None? ==> Pending(delay > 0, ts, |ts|, outcomes) && LastOf(ts, |ts|, last) && unchanged(errors)
    ensures stop.None? && last.Some? && last.value.GotFetchError? ==> Known(last.value.fe, errors)
  {
    stop, last, outcomes := None, None, [];
    var i := 0;
    while i < |rounds|
      invariant i <= |ts|
      invariant Pending(delay > 0, ts, i, outcomes)
      invariant LastOf(ts, i, last)
      invariant last.Some? && last.value.GotFetchError? ==> Known(last.value.fe, errors)
      invariant unchanged(errors) && Plays(retryThrottled, rounds, ts, errors)
      invariant stop.None?
    {
      var ret, trail;
      stop, ret, trail := TakeNext(retryThrottled, delay, rounds, i, outcomes, ts, errors);
      if stop.Some? {
        return;
      }
      last, outcomes := Some(ret), trail;
      i := i + 1;
    }
  }

  /** `retryBundle`. An attempt's own error object is completed in place and returned; no other one is touched. */
  method RetryBundle(retryThrottled: bool, maxAttempts: int, delay: int, rounds: seq<Round>, ghost ts: seq<Turn>,
                     ghost errors: set<FetchError>)
    returns (r: Returned)
    requires maxAttempts <= |rounds| && Plays(retryThrottled, rounds, ts, errors)
    modifies errors
    ensures ResultOf(r) == RetryBundleSpec(maxAttempts, delay > 0, ts)
    ensures r.err != null ==> Known(r.err, errors)
    ensures forall e :: e in errors && e != r.err ==> unchanged(e)
  {
    var allowed := rounds[..Budget(maxAttempts)];
    ghost var us := ts[..Budget(maxAttempts)];
    var stop, last, outcomes := TakeTurns(retryThrottled, delay, allowed, us, errors);
    if stop.Some? {
      return stop.value;
    }
    PendingAtTheEnd(delay > 0, us, outcomes);
    var err := FinalizeFetchError(last, |allowed|, outcomes);
    return Returned([], None, |allowed|, [], err);
  }

  method ClassifyReturn(ret: AttemptReturn) returns (o: AttemptOutcome)
    requires !ret.GotBundles?
    ensures o == ClassifyAttempt(ValueOf(ret))
  {
    if ret.GotFetchError? {
      var kind := ret.fe.kind;
      if kind == Unset {
        kind := Unknown;
      }
      return AttemptOutcome(kind, ret.fe.step);
    }
    return AttemptOutcome(ClassifyTransport(ret.raw).0, NoStep);
  }
}

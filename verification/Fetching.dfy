/** What a whole fetch means: the laws of the retry engine for every stream of answers, and of
    `BundleFromName`, which runs it over the registry. */
module Fetching {
  import opened Common
  import opened Failures
  import opened Registry
  import opened Retry
  import Naming

  /** Turn `i` fails and leaves the fetch running. */
  predicate Continues(delayed: bool, t: Turn, i: nat) {
    NotCut(delayed, t, i) && !t.result.Fetched? && !CannotBeRetried(t.result) && t.after.None?
  }

  /** No pause, or one that ran to its end. */
  predicate NotCut(delayed: bool, t: Turn, i: nat) {
    i > 0 && delayed ==> t.pause == Elapsed
  }

  predicate CannotBeRetried(v: AttemptValue) {
    match v
    case Fetched(_, _) => false
    case Structured(f) => !f.recoverable
    case Unstructured(_) => false
  }

  /** The outcome names an attempt's error: its own kind, an empty one read as unknown, and its step; or the transport's
      classification, without a step. */
  predicate Names(o: AttemptOutcome, v: AttemptValue) {
    match v
    case Fetched(_, _) => false
    case Structured(f) => o.step == f.step && o.reason == if f.kind == Unset then Unknown else f.kind
    case Unstructured(raw) => o.step == NoStep && o.reason == ClassifyTransport(raw).0
  }

  predicate NamesAll(trail: seq<AttemptOutcome>, ts: seq<Turn>, n: nat)
    requires n <= |ts|
  {
    |trail| == n && forall i :: 0 <= i < n ==> Names(trail[i], ts[i].result)
  }

  predicate NamesContext(k: Kind, err: ContextError) {
    match err
    case DeadlineExceeded => k == Timeout
    case ContextCanceled => k == Canceled
  }

  predicate AllContinue(delayed: bool, ts: seq<Turn>, n: nat)
    requires n <= |ts|
  {
    forall k :: 0 <= k < n ==> Continues(delayed, ts[k], k)
  }

  /** Why a failed fetch with these attempts and this error ended: all turns used up, the pause after the last
      attempt cut, a fatal last attempt, or a parent context found done after a last attempt that was not fatal. */
  predicate Exhausted(delayed: bool, ts: seq<Turn>, n: nat, f: FetchFailure) {
    && n == |ts| && AllContinue(delayed, ts, n)
    && if n == 0 then f == FetchFailure(NoStep, Unknown, 0, [], 0, false, NoAttempts) else Reports(ts[n - 1].result, f)
  }

  /** The error is the attempt's own, completed, or else classifies the attempt's. */
  predicate Reports(v: AttemptValue, f: FetchFailure) {
    match v
    case Fetched(_, _) => false
    case Structured(g) => f == g.(attempts := f.attempts, trail := f.trail)
    case Unstructured(raw) =>
      && (f.kind, f.status) == ClassifyTransport(raw) && f.step == NoStep && f.cause == FromRaw(raw)
  }

  predicate CutBefore(delayed: bool, ts: seq<Turn>, n: nat, f: FetchFailure) {
    && 0 < n < |ts| && delayed && ts[n].pause.CutShort? && AllContinue(delayed, ts, n)
    && NamesContext(f.kind, ts[n].pause.err) && f.step == NoStep && f.status == 0
    && f.cause == FromContext(ts[n].pause.err)
  }

  predicate FatalLast(ts: seq<Turn>, n: nat, f: FetchFailure) {
    && 0 < n <= |ts| && CannotBeRetried(ts[n - 1].result)
    && f == ts[n - 1].result.failure.(attempts := n, trail := f.trail)
  }

  predicate DoneAfterLast(ts: seq<Turn>, n: nat, f: FetchFailure) {
    && 0 < n <= |ts| && !ts[n - 1].result.Fetched? && !CannotBeRetried(ts[n - 1].result) && ts[n - 1].after.Some?
    && NamesContext(f.kind, ts[n - 1].after.value) && f.status == 0 && f.cause == FromContext(ts[n - 1].after.value)
    && f.step == if ts[n - 1].result.Structured? then ts[n - 1].result.failure.step else NoStep
  }

  predicate SuccessLaw(delayed: bool, ts: seq<Turn>, r: FetchResult)
    requires r.err.None?
  {
    && 1 <= r.attempts <= |ts| && AllContinue(delayed, ts, r.attempts - 1)
    && NotCut(delayed, ts[r.attempts - 1], r.attempts - 1) && NamesAll(r.trail, ts, r.attempts - 1)
    && ts[r.attempts - 1].result == Fetched(r.bundles, r.digest)
    && AllFailed(ts[..r.attempts - 1]) && r.trail == Trail(ts[..r.attempts - 1])
  }

  predicate FailureLaw(delayed: bool, ts: seq<Turn>, r: FetchResult)
    requires r.err.Some?
  {
    var n, f := r.attempts, r.err.value;
    && n <= |ts| && (n > 0 ==> AllContinue(delayed, ts, n - 1) && NotCut(delayed, ts[n - 1], n - 1))
    && NamesAll(f.trail, ts, n) && AllFailed(ts[..n]) && f.trail == Trail(ts[..n]) && f.attempts == n
    && r.bundles == [] && r.digest == None && r.trail == []
    && (Exhausted(delayed, ts, n, f) || CutBefore(delayed, ts, n, f) || FatalLast(ts, n, f) || DoneAfterLast(ts, n, f))
    && (f.recoverable <==> |ts| > 0 && Exhausted(delayed, ts, n, f))
  }

  predicate RetryLaw(delayed: bool, ts: seq<Turn>, r: FetchResult) {
    if r.err.None? then SuccessLaw(delayed, ts, r) else FailureLaw(delayed, ts, r)
  }

  lemma CutPauseLaw(delayed: bool, ts: seq<Turn>, i: nat)
    requires i < |ts| && AllContinue(delayed, ts, i) && AllFailed(ts[..i])
    requires i > 0 && delayed && ts[i].pause.CutShort?
    ensures FailureLaw(delayed, ts, Failing(i, ContextFailure(NoStep, ts[i].pause.err, i, Trail(ts[..i]))))
  {
    var f := ContextFailure(NoStep, ts[i].pause.err, i, Trail(ts[..i]));
    assert CutBefore(delayed, ts, i, f);
  }

  lemma StoppingAttemptLaw(delayed: bool, ts: seq<Turn>, i: nat, f: FetchFailure)
    requires i < |ts| && AllContinue(delayed, ts, i) && AllFailed(ts[..i]) && !ts[i].result.Fetched?
    requires f.attempts == i + 1 && f.trail == Trail(ts[..i]) + [ClassifyAttempt(ts[i].result)] && !f.recoverable
    requires !Continues(delayed, ts[i], i) && NotCut(delayed, ts[i], i)
    requires FatalLast(ts, i + 1, f) || DoneAfterLast(ts, i + 1, f)
    ensures FailureLaw(delayed, ts, Failing(i + 1, f))
  {
    OneMoreFailure(ts, i);
    assert !AllContinue(delayed, ts, i + 1);
  }

  lemma SuccessTurnLaw(delayed: bool, ts: seq<Turn>, i: nat, r: FetchResult)
    requires i < |ts| && AllContinue(delayed, ts, i) && AllFailed(ts[..i]) && NotCut(delayed, ts[i], i)
    requires r.err.None? && r.attempts == i + 1 && r.trail == Trail(ts[..i])
    requires ts[i].result == Fetched(r.bundles, r.digest)
    ensures SuccessLaw(delayed, ts, r)
  {
  }

  lemma {:induction false} StoppingTurnLaw(delayed: bool, ts: seq<Turn>, i: nat)
    requires i < |ts| && AllContinue(delayed, ts, i) && AllFailed(ts[..i])
    requires !Continues(delayed, ts[i], i)
    ensures RetryLaw(delayed, ts, RetryFrom(delayed, ts, i))
  {
    var r := StopsAt(delayed, ts[i], i, Trail(ts[..i])).value;
    assert RetryFrom(delayed, ts, i) == r;
    if i > 0 && delayed && ts[i].pause.CutShort? {
      CutPauseLaw(delayed, ts, i);
    } else if !ts[i].result.Fetched? {
      StoppingAttemptLaw(delayed, ts, i, r.err.value);
    } else {
      SuccessTurnLaw(delayed, ts, i, r);
    }
  }

  lemma {:induction false} LastTurnLaw(delayed: bool, ts: seq<Turn>)
    requires AllContinue(delayed, ts, |ts|) && AllFailed(ts)
    ensures RetryLaw(delayed, ts, Failing(|ts|, Finalize(ts)))
  {
    assert ts[..|ts|] == ts;
    if ts != [] {
      assert Continues(delayed, ts[|ts| - 1], |ts| - 1);
    }
  }

  lemma {:induction false} RetryFromLaw(delayed: bool, ts: seq<Turn>, i: nat)
    requires i <= |ts| && AllContinue(delayed, ts, i) && AllFailed(ts[..i])
    ensures RetryLaw(delayed, ts, RetryFrom(delayed, ts, i))
    decreases |ts| - i
  {
    if i == |ts| {
      assert ts[..i] == ts;
      LastTurnLaw(delayed, ts);
    } else if Continues(delayed, ts[i], i) {
      OneMoreFailure(ts, i);
      RetryFromLaw(delayed, ts, i + 1);
    } else {
      StoppingTurnLaw(delayed, ts, i);
    }
  }

  /** Retry refinement, over every stream of attempt results, pauses and context states: at most `maxAttempts`
      attempts are made; all before the last failed and could be retried; a success hands on the last attempt's
      bundles and digest with a trail of the attempts before it; a failure carries the classification of every
      attempt in order, agrees with the result on the number of attempts, ends for one of the four reasons listed,
      and is marked recoverable exactly when at least one turn was allowed and all of them were used up. */
  lemma {:induction false} RetryMeaning(maxAttempts: int, delayed: bool, ts: seq<Turn>)
    requires maxAttempts <= |ts|
    ensures var allowed := if maxAttempts < 0 then [] else ts[..maxAttempts];
            RetryLaw(delayed, allowed, RetryBundleSpec(maxAttempts, delayed, ts))
  {
    RetryFromLaw(delayed, if maxAttempts < 0 then [] else ts[..maxAttempts], 0);
  }

  /** Every allowed attempt is made unless something ends the fetch before: with nothing to stop it there are exactly
      `maxAttempts` attempts, and with fewer of them a failed fetch was cut, fatal or found the parent done. */
  lemma {:induction false} AllAttemptsAreMade(maxAttempts: int, delayed: bool, ts: seq<Turn>)
    requires 0 <= maxAttempts <= |ts|
    ensures var r := RetryBundleSpec(maxAttempts, delayed, ts);
            && (AllContinue(delayed, ts, maxAttempts) ==> r.attempts == maxAttempts && r.err.Some?)
            && (r.err.Some? && r.attempts < maxAttempts ==>
                  || CutBefore(delayed, ts, r.attempts, r.err.value)
                  || FatalLast(ts, r.attempts, r.err.value)
                  || DoneAfterLast(ts, r.attempts, r.err.value))
  {
    var us, r := ts[..maxAttempts], RetryBundleSpec(maxAttempts, delayed, ts);
    RetryMeaning(maxAttempts, delayed, ts);
    assert forall k :: 0 <= k < maxAttempts ==> us[k] == ts[k];
    if AllContinue(delayed, ts, maxAttempts) {
      NothingStops(delayed, us, r);
    }
  }

  lemma NothingStops(delayed: bool, ts: seq<Turn>, r: FetchResult)
    requires AllContinue(delayed, ts, |ts|) && RetryLaw(delayed, ts, r)
    ensures r.attempts == |ts| && r.err.Some?
  {
  }

  function One(b: bool): nat {
    if b then 1 else 0
  }

  /** A failed fetch ends for exactly one of the four reasons. */
  lemma OneReason(delayed: bool, ts: seq<Turn>, r: FetchResult)
    requires r.err.Some? && FailureLaw(delayed, ts, r)
    ensures var n, f := r.attempts, r.err.value;
            One(Exhausted(delayed, ts, n, f)) + One(CutBefore(delayed, ts, n, f))
            + One(FatalLast(ts, n, f)) + One(DoneAfterLast(ts, n, f)) == 1
  {
    var n := r.attempts;
    assert n > 0 && n <= |ts| && AllContinue(delayed, ts, n) ==> Continues(delayed, ts[n - 1], n - 1);
  }

  // ---- BundleFromName ----

  /** A turn whose attempt is `DoBundleFromName` against a registry. */
  datatype RegistryRound = RegistryRound(pause: Pause, script: Script, after: Option<ContextError>)

  datatype Config = Config(maxAttempts: int, timeout: int, delay: int, retryThrottled: bool)

  function Turns(retryThrottled: bool, rs: seq<RegistryRound>): (ts: seq<Turn>)
    ensures |ts| == |rs|
    ensures forall i :: 0 <= i < |rs| ==>
                          ts[i] == Turn(rs[i].pause, DoBundle(retryThrottled, rs[i].script), rs[i].after)
  {
    seq(|rs|, i requires 0 <= i < |rs| => Turn(rs[i].pause, DoBundle(retryThrottled, rs[i].script), rs[i].after))
  }

  function Fetch(cfg: Config, rs: seq<RegistryRound>): FetchResult
    requires cfg.maxAttempts <= |rs|
  {
    RetryBundleSpec(cfg.maxAttempts, cfg.delay > 0, Turns(cfg.retryThrottled, rs))
  }

  /** The fetch obeys the law of the retry engine, with the configured delay, over the registry's turns. */
  lemma FetchObeysRetryLaw(cfg: Config, rs: seq<RegistryRound>)
    requires cfg.maxAttempts <= |rs|
    ensures var ts := Turns(cfg.retryThrottled, rs);
            RetryLaw(cfg.delay > 0, if cfg.maxAttempts < 0 then [] else ts[..cfg.maxAttempts], Fetch(cfg, rs))
  {
    RetryMeaning(cfg.maxAttempts, cfg.delay > 0, Turns(cfg.retryThrottled, rs));
  }

  method BundleFromName(cfg: Config, rs: seq<RegistryRound>) returns (r: Returned)
    requires cfg.maxAttempts <= |rs|
    ensures ResultOf(r) == Fetch(cfg, rs)
    ensures r.err != null ==> fresh(r.err)
  {
    var rounds := seq(|rs|, i requires 0 <= i < |rs| => Round(rs[i].pause, FromRegistry(rs[i].script), rs[i].after));
    r := RetryBundle(cfg.retryThrottled, cfg.maxAttempts, cfg.delay, rounds, Turns(cfg.retryThrottled, rs), {});
  }

  /** The trail a fetch reports: on the error of a failed one, on the result of a successful one. */
  function ReportedTrail(r: FetchResult): seq<AttemptOutcome> {
    if r.err.Some? then r.err.value.trail else r.trail
  }

  lemma ClassificationIsNamed(v: AttemptValue)
    requires !v.Fetched?
    ensures ClassifyAttempt(v).reason != Unset
  {
    if v.Unstructured? && v.raw.transport.Some? {
      FirstDiagnosticRange(v.raw.transport.value.diagnostics);
    }
  }

  /** The terminal error and the trail agree: where the fetch was exhausted or ended on a fatal attempt, the last entry
      is the error's own kind and step; where the parent was done after the attempt, it has the error's step. */
  lemma TerminalErrorMatchesTrail(maxAttempts: int, delayed: bool, ts: seq<Turn>)
    requires maxAttempts <= |ts|
    requires var r := RetryBundleSpec(maxAttempts, delayed, ts); r.err.Some? && r.attempts > 0
    ensures var us := if maxAttempts < 0 then [] else ts[..maxAttempts];
            var r := RetryBundleSpec(maxAttempts, delayed, ts);
            var n, f := r.attempts, r.err.value;
            && |f.trail| == n
            && (Exhausted(delayed, us, n, f) || FatalLast(us, n, f) ==>
                  f.trail[n - 1] == AttemptOutcome(if f.kind == Unset then Unknown else f.kind, f.step))
            && (DoneAfterLast(us, n, f) ==> f.trail[n - 1].step == f.step)
  {
    var us := if maxAttempts < 0 then [] else ts[..maxAttempts];
    var r := RetryBundleSpec(maxAttempts, delayed, ts);
    RetryMeaning(maxAttempts, delayed, ts);
    ClassificationIsNamed(us[r.attempts - 1].result);
  }

  /** Whatever the attempts answer, every entry of a reported trail has a reason of its own. */
  lemma ReportedTrailIsNamed(maxAttempts: int, delayed: bool, ts: seq<Turn>)
    requires maxAttempts <= |ts|
    ensures Naming.Named(ReportedTrail(RetryBundleSpec(maxAttempts, delayed, ts)))
  {
    var us := if maxAttempts < 0 then [] else ts[..maxAttempts];
    RetryMeaning(maxAttempts, delayed, ts);
    forall i | 0 <= i < |us| && !us[i].result.Fetched? ensures ClassifyAttempt(us[i].result).reason != Unset {
      ClassificationIsNamed(us[i].result);
    }
  }

  /** So two fetches whose trails are written alike have the same trail. */
  lemma WrittenAlikeIsEqual(m: int, delayed: bool, ts: seq<Turn>, m': int, delayed': bool, ts': seq<Turn>)
    requires m <= |ts| && m' <= |ts'|
    requires Naming.Rendered(ReportedTrail(RetryBundleSpec(m, delayed, ts))) ==
             Naming.Rendered(ReportedTrail(RetryBundleSpec(m', delayed', ts')))
    ensures ReportedTrail(RetryBundleSpec(m, delayed, ts)) == ReportedTrail(RetryBundleSpec(m', delayed', ts'))
  {
    ReportedTrailIsNamed(m, delayed, ts);
    ReportedTrailIsNamed(m', delayed', ts');
    var a, b := ReportedTrail(RetryBundleSpec(m, delayed, ts)), ReportedTrail(RetryBundleSpec(m', delayed', ts'));
    Naming.RenderingIsInjective(a, b);
  }

  /** Trail shape: a kind that a retry cannot fix occurs only as the last entry of a failed fetch's trail, and never
      in the trail of a successful one. */
  lemma {:induction false} TrailShape(cfg: Config, rs: seq<RegistryRound>, k: nat)
    requires cfg.maxAttempts <= |rs|
    requires k < |ReportedTrail(Fetch(cfg, rs))|
    requires Terminal(cfg.retryThrottled, ReportedTrail(Fetch(cfg, rs))[k].reason)
    ensures Fetch(cfg, rs).err.Some? && k == |ReportedTrail(Fetch(cfg, rs))| - 1
  {
    var ts := Turns(cfg.retryThrottled, rs);
    var us := if cfg.maxAttempts < 0 then [] else ts[..cfg.maxAttempts];
    RetryMeaning(cfg.maxAttempts, cfg.delay > 0, ts);
    assert us[k] == ts[k];
    AttemptFailureMeaning(cfg.retryThrottled, rs[k].script);
    AttemptIsAllOrNothing(cfg.retryThrottled, rs[k].script);
    assert IsFatal(us[k].result);
    assert !Continues(cfg.delay > 0, us[k], k);
  }

  /** A fetch reports an invalid bundle exactly when its last attempt read a layer and could not decode it, whatever
      the parent context did meanwhile. */
  lemma {:induction false} InvalidBundleIff(cfg: Config, rs: seq<RegistryRound>)
    requires cfg.maxAttempts <= |rs|
    ensures var r := Fetch(cfg, rs);
            r.err.Some? && r.err.value.kind == BundleInvalid <==>
            0 < r.attempts && ReadButUndecodable(rs[r.attempts - 1].script)
  {
    var ts := Turns(cfg.retryThrottled, rs);
    var us := if cfg.maxAttempts < 0 then [] else ts[..cfg.maxAttempts];
    var r := Fetch(cfg, rs);
    RetryMeaning(cfg.maxAttempts, cfg.delay > 0, ts);
    if 0 < r.attempts {
      var s := rs[r.attempts - 1].script;
      assert us[r.attempts - 1] == ts[r.attempts - 1];
      AttemptFailureMeaning(cfg.retryThrottled, s);
      AttemptIsAllOrNothing(cfg.retryThrottled, s);
      if ReadButUndecodable(s) {
        InvalidBundleStops(cfg.delay > 0, us, r);
      } else if r.err.Some? && r.err.value.kind == BundleInvalid {
        InvalidBundleComesFromAttempt(cfg.delay > 0, us, r);
      }
    } else if r.err.Some? {
      assert us == [] ==> r == Failing(0, Finalize([]));
    }
  }

  lemma InvalidBundleStops(delayed: bool, ts: seq<Turn>, r: FetchResult)
    requires RetryLaw(delayed, ts, r) && r.attempts > 0
    requires IsFatal(ts[r.attempts - 1].result) && ts[r.attempts - 1].result.failure.kind == BundleInvalid
    ensures r.err.Some? && r.err.value.kind == BundleInvalid
  {
    assert !Continues(delayed, ts[r.attempts - 1], r.attempts - 1);
  }

  lemma InvalidBundleComesFromAttempt(delayed: bool, ts: seq<Turn>, r: FetchResult)
    requires RetryLaw(delayed, ts, r) && r.attempts > 0
    requires r.err.Some? && r.err.value.kind == BundleInvalid
    requires !ts[r.attempts - 1].result.Unstructured?
    ensures ts[r.attempts - 1].result.Structured? && ts[r.attempts - 1].result.failure.kind == BundleInvalid
  {
  }

  /** Digest safety and all-or-nothing, through the retries: a successful fetch returns exactly the sigstore bundles of
      its last attempt in manifest order, with a digest exactly when there are any. */
  lemma {:induction false} FetchSuccessMeaning(cfg: Config, rs: seq<RegistryRound>)
    requires cfg.maxAttempts <= |rs|
    requires Fetch(cfg, rs).err.None?
    ensures var r := Fetch(cfg, rs);
            && 0 < r.attempts <= cfg.maxAttempts && |r.trail| == r.attempts - 1
            && var s := rs[r.attempts - 1].script;
            && s.IndexRead() && r.bundles == Attestations(s.manifest.value)
            && (forall i :: 0 <= i < |s.manifest.value| ==> Readable(s.manifest.value[i]))
            && r.digest == if r.bundles == [] then None else Some(s.descriptor.value)
  {
    var ts := Turns(cfg.retryThrottled, rs);
    RetryMeaning(cfg.maxAttempts, cfg.delay > 0, ts);
    var n := Fetch(cfg, rs).attempts;
    assert ts[..cfg.maxAttempts][n - 1] == ts[n - 1];
    AttemptIsAllOrNothing(cfg.retryThrottled, rs[n - 1].script);
  }

  /** The script of the attempt that decided the fetch. */
  function Deciding(cfg: Config, rs: seq<RegistryRound>): Option<Script>
    requires cfg.maxAttempts <= |rs|
  {
    var n := Fetch(cfg, rs).attempts;
    if n == 0 then None else Some(rs[n - 1].script)
  }

  /** A fetch succeeds exactly when its last attempt could read the index and every sigstore referrer. */
  lemma {:induction false} FetchSuccessIff(cfg: Config, rs: seq<RegistryRound>)
    requires cfg.maxAttempts <= |rs|
    ensures Fetch(cfg, rs).err.None? <==>
            && Deciding(cfg, rs).Some? && Deciding(cfg, rs).value.IndexRead()
            && var refs := Deciding(cfg, rs).value.manifest.value;
            forall i :: 0 <= i < |refs| ==> Readable(refs[i])
  {
    var ts := Turns(cfg.retryThrottled, rs);
    var n := Fetch(cfg, rs).attempts;
    RetryMeaning(cfg.maxAttempts, cfg.delay > 0, ts);
    if n > 0 {
      assert ts[..cfg.maxAttempts][n - 1] == ts[n - 1];
      assert ts[..cfg.maxAttempts][..n][n - 1] == ts[n - 1];
      AttemptIsAllOrNothing(cfg.retryThrottled, rs[n - 1].script);
    }
  }

  // ---- Time ----

  /** When a turn's pause is over and when its attempt returns. */
  datatype Timing = Timing(resumed: int, finished: int)

  /** When turn `i` begins: at the start, or when the attempt before it returned. */
  function Begins(start: int, times: seq<Timing>, i: nat): int
    requires i <= |times|
  {
    if i == 0 then start else times[i - 1].finished
  }

  /** Timers and contexts keep their promises: a pause lasts at most `delay`, an attempt at most `timeout`, and neither
      goes on once the parent's deadline has passed. */
  predicate Punctual(cfg: Config, deadline: Option<int>, start: int, times: seq<Timing>) {
    forall i :: 0 <= i < |times| ==>
      var t, begin := times[i], Begins(start, times, i);
      && begin <= t.resumed <= t.finished
      && t.resumed <= begin + (if i > 0 && cfg.delay > 0 then cfg.delay else 0)
      && t.finished <= t.resumed + cfg.timeout
      && (deadline.Some? && begin <= deadline.value ==> t.finished <= deadline.value)
  }

  lemma {:induction false} TurnTimeBound(cfg: Config, deadline: Option<int>, times: seq<Timing>, start: int, k: nat)
    requires k <= |times| && cfg.timeout > 0 && cfg.delay >= 0
    requires Punctual(cfg, deadline, start, times)
    ensures start <= Begins(start, times, k)
    ensures Begins(start, times, k) <= start + k * cfg.timeout + (if k == 0 then 0 else (k - 1) * cfg.delay)
    ensures deadline.Some? && start <= deadline.value ==> Begins(start, times, k) <= deadline.value
  {
    if k > 0 {
      TurnTimeBound(cfg, deadline, times, start, k - 1);
      assert k * cfg.timeout == (k - 1) * cfg.timeout + cfg.timeout;
      assert k > 1 ==> (k - 1) * cfg.delay == (k - 2) * cfg.delay + cfg.delay;
      assert times[k - 1].finished == Begins(start, times, k);
    }
  }

  lemma OneMore(n: nat, x: int)
    ensures n * x == (n - 1) * x + x
  {
  }

  lemma ProductGrows(a: nat, b: nat, x: int)
    requires a <= b && x >= 0
    ensures a * x <= b * x
  {
  }

  /** Time bound: with an accepted configuration and punctual timers, a fetch takes at most `maxAttempts` timeouts and
      one delay fewer, and does not outlast a parent deadline that lies ahead when it starts. It returns with its last
      attempt, or when the pause after that is over. */
  lemma FetchTimeBound(cfg: Config, deadline: Option<int>, ts: seq<Turn>, times: seq<Timing>, start: int)
    requires cfg.maxAttempts >= 1 && cfg.timeout > 0 && cfg.delay >= 0
    requires |ts| == |times| == cfg.maxAttempts
    requires Punctual(cfg, deadline, start, times)
    ensures var n := RetryBundleSpec(cfg.maxAttempts, cfg.delay > 0, ts).attempts;
            && 0 < n <= cfg.maxAttempts
            && InTime(cfg, deadline, start, times[n - 1].finished)
            && (n < cfg.maxAttempts ==> InTime(cfg, deadline, start, times[n].resumed))
  {
    var n, m := RetryBundleSpec(cfg.maxAttempts, cfg.delay > 0, ts).attempts, cfg.maxAttempts;
    RetryMeaning(m, cfg.delay > 0, ts);
    assert ts[..m] == ts;
    AttemptInTime(cfg, deadline, times, start, n);
    if n < m {
      PauseInTime(cfg, deadline, times, start, n);
    }
  }

  lemma AttemptInTime(cfg: Config, deadline: Option<int>, times: seq<Timing>, start: int, n: nat)
    requires 0 < n <= cfg.maxAttempts == |times| && cfg.timeout > 0 && cfg.delay >= 0
    requires Punctual(cfg, deadline, start, times)
    ensures InTime(cfg, deadline, start, times[n - 1].finished)
  {
    TurnTimeBound(cfg, deadline, times, start, n);
    ProductGrows(n, cfg.maxAttempts, cfg.timeout);
    ProductGrows(n - 1, cfg.maxAttempts - 1, cfg.delay);
  }

  lemma PauseInTime(cfg: Config, deadline: Option<int>, times: seq<Timing>, start: int, n: nat)
    requires 0 < n < cfg.maxAttempts == |times| && cfg.timeout > 0 && cfg.delay >= 0
    requires Punctual(cfg, deadline, start, times)
    ensures InTime(cfg, deadline, start, times[n].resumed)
  {
    TurnTimeBound(cfg, deadline, times, start, n);
    assert times[n].resumed <= Begins(start, times, n) + cfg.delay;
    OneMore(n, cfg.delay);
    ProductGrows(n, cfg.maxAttempts, cfg.timeout);
    ProductGrows(n, cfg.maxAttempts - 1, cfg.delay);
  }

  /** The instant is within the fetch's time budget, and not after the parent's deadline. */
  predicate InTime(cfg: Config, deadline: Option<int>, start: int, t: int) {
    && start <= t <= start + cfg.maxAttempts * cfg.timeout + (cfg.maxAttempts - 1) * cfg.delay
    && (deadline.Some? && start <= deadline.value ==> t <= deadline.value)
  }
}

/** The failure taxonomy of the bundle fetch: how errors are named, and which names end a retry. */
module Failures {
  import opened Common

  /** `Unset` is the empty string a `FetchError` may carry. */
  datatype Kind =
    | Unset | Timeout | Canceled | Unauthorized | Forbidden | Throttled | NotFound
    | ReferrersUnavailable | DescriptorError | BlobError | BundleInvalid | Unknown

  datatype Step = NoStep | AtDescriptor | AtReferrers | AtBlob | AtDecode

  datatype AttemptOutcome = AttemptOutcome(reason: Kind, step: Step)

  datatype Diagnostic = UnauthorizedCode | DeniedCode | TooManyRequestsCode | OtherCode

  /** A registry answer with an error status and its diagnostics. */
  datatype TransportError = TransportError(status: int, diagnostics: seq<Diagnostic>)

  /** What `errors.Is` and `errors.As` can see of an error that is not a `FetchError`. */
  datatype RawError = RawError(deadline: bool, canceled: bool, transport: Option<TransportError>)

  datatype ContextError = DeadlineExceeded | ContextCanceled

  datatype Cause = FromRaw(raw: RawError) | FromContext(err: ContextError) | NotDecoded | NoAttempts

  /** The value of a `FetchError`. */
  datatype FetchFailure = FetchFailure(
    step: Step, kind: Kind, attempts: nat, trail: seq<AttemptOutcome>, status: int, recoverable: bool, cause: Cause)

  function FirstDiagnostic(ds: seq<Diagnostic>): Kind {
    if ds == [] then Unknown
    else match ds[0]
      case UnauthorizedCode => Unauthorized
      case DeniedCode => Forbidden
      case TooManyRequestsCode => Throttled
      case OtherCode => FirstDiagnostic(ds[1..])
  }

  function ClassifyTransport(e: RawError): (Kind, int) {
    if e.deadline then (Timeout, 0)
    else if e.canceled then (Canceled, 0)
    else match e.transport
      case None => (Unknown, 0)
      case Some(t) =>
        if t.status == 401 then (Unauthorized, t.status)
        else if t.status == 403 then (Forbidden, t.status)
        else if t.status == 404 then (NotFound, t.status)
        else if t.status == 429 then (Throttled, t.status)
        else (FirstDiagnostic(t.diagnostics), t.status)
  }

  function KindFromContext(e: ContextError): Kind {
    match e
    case DeadlineExceeded => Timeout
    case ContextCanceled => Canceled
  }

  /** The kinds after which a retry cannot help. */
  predicate Terminal(retryThrottled: bool, k: Kind) {
    k == Unauthorized || k == Forbidden || k == BundleInvalid || k == NotFound || (k == Throttled && !retryThrottled)
  }

  function NewFetchError(retryThrottled: bool, step: Step, fallback: Kind, e: RawError): FetchFailure {
    var (k, code) := ClassifyTransport(e);
    var kind := if k == Unknown then fallback else k;
    var recoverable :=
      && kind != Unauthorized && kind != Forbidden && kind != BundleInvalid && kind != NotFound
      && (retryThrottled || kind != Throttled);
    FetchFailure(step, kind, 0, [], code, recoverable, FromRaw(e))
  }

  /** The error of a layer that was read but is not a bundle. */
  function UndecodableError(): FetchFailure {
    FetchFailure(AtDecode, BundleInvalid, 0, [], 0, false, NotDecoded)
  }

  /** The kind a single diagnostic names, if any. */
  predicate Says(d: Diagnostic, k: Kind) {
    match d
    case UnauthorizedCode => k == Unauthorized
    case DeniedCode => k == Forbidden
    case TooManyRequestsCode => k == Throttled
    case OtherCode => false
  }

  /** The first diagnostic with one of the three codes decides. */
  lemma {:induction false} FirstDiagnosticDecides(ds: seq<Diagnostic>, i: nat, k: Kind)
    requires i < |ds| && Says(ds[i], k) && forall j :: 0 <= j < i ==> ds[j] == OtherCode
    ensures FirstDiagnostic(ds) == k
  {
    if i > 0 {
      FirstDiagnosticDecides(ds[1..], i - 1, k);
    }
  }

  /** The table of `classifyTransport`: a deadline before a cancellation before the registry's answer; in this the four
      statuses before the diagnostics; the status code reported only for the registry's answer. */
  lemma ClassificationTable(e: RawError)
    ensures e.deadline ==> ClassifyTransport(e) == (Timeout, 0)
    ensures !e.deadline && e.canceled ==> ClassifyTransport(e) == (Canceled, 0)
    ensures !e.deadline && !e.canceled && e.transport.None? ==> ClassifyTransport(e) == (Unknown, 0)
    ensures !e.deadline && !e.canceled && e.transport.Some? ==>
              var t, (k, code) := e.transport.value, ClassifyTransport(e);
              && code == t.status
              && (t.status == 401 ==> k == Unauthorized)
              && (t.status == 403 ==> k == Forbidden)
              && (t.status == 404 ==> k == NotFound)
              && (t.status == 429 ==> k == Throttled)
              && (t.status !in {401, 403, 404, 429} ==> k == FirstDiagnostic(t.diagnostics))
  {
  }

  lemma {:induction false} FirstDiagnosticRange(ds: seq<Diagnostic>)
    ensures FirstDiagnostic(ds) in {Unauthorized, Forbidden, Throttled, Unknown}
    ensures FirstDiagnostic(ds) == Unknown <==> forall i :: 0 <= i < |ds| ==> ds[i] == OtherCode
  {
    if ds != [] && ds[0] == OtherCode {
      FirstDiagnosticRange(ds[1..]);
      assert forall i :: 1 <= i < |ds| ==> ds[i] == ds[1..][i - 1];
    }
  }

  /** How errors of a fetch step are named: a transport error never names itself an invalid bundle or a step's
      fallback kind, never stays unnamed, and is recoverable exactly when its kind is not terminal. */
  lemma NewFetchErrorMeaning(retryThrottled: bool, step: Step, fallback: Kind, e: RawError)
    requires fallback in {DescriptorError, ReferrersUnavailable, BlobError}
    ensures var f := NewFetchError(retryThrottled, step, fallback, e);
            && f.step == step
            && f.kind in {Timeout, Canceled, Unauthorized, Forbidden, NotFound, Throttled, fallback}
            && (f.recoverable <==> !Terminal(retryThrottled, f.kind))
            && (f.kind == fallback <==> ClassifyTransport(e).0 == Unknown)
            && (f.kind != fallback ==> f.kind == ClassifyTransport(e).0)
            && f.status == ClassifyTransport(e).1 && f.attempts == 0 && f.trail == [] && f.cause == FromRaw(e)
            && (f.kind in {Timeout, Canceled} ==> f.status == 0)
  {
    if e.transport.Some? {
      FirstDiagnosticRange(e.transport.value.diagnostics);
    }
  }
}

/** `Provider.Validate`: one item per image, or an aborted request, and the counters kept beside it. */
module Provider {
  import opened Common
  import opened Failures
  import opened Registry
  import opened Retry
  import opened Fetching
  import opened Naming
  import opened Verifying

  /** A requested image reference and what the outside answers while it is handled: whether the reference parses, and
      the rounds of its fetch. */
  datatype KeyRun = KeyRun(key: string, parses: bool, rounds: seq<RegistryRound>)

  /** A requested image reference with the outcome of its fetch. */
  datatype KeyAnswer = KeyAnswer(key: string, parses: bool, fetch: FetchResult) {
    /** What the provider demands of its bundle fetcher: bundles come with a digest. */
    predicate DigestSafe() {
      fetch.err.None? && fetch.bundles != [] ==> fetch.digest.Some?
    }
  }

  predicate AllDigestSafe(ks: seq<KeyAnswer>) {
    forall i :: 0 <= i < |ks| ==> ks[i].DigestSafe()
  }

  /** The error of an item; `ErrorText` is how it is written. */
  datatype ItemError = NoError | InvalidReference | ErrorFetchingBundle(reason: Kind) | ImageUnsigned | InvalidSignature

  function ErrorText(e: ItemError): (s: string)
    ensures s == "" <==> e == NoError
  {
    match e
    case NoError => ""
    case InvalidReference => "invalid_reference"
    case ErrorFetchingBundle(reason) => "error_fetching_bundle_" + KindName(reason)
    case ImageUnsigned => "image_unsigned"
    case InvalidSignature => "invalid_signature"
  }

  /** The texts a client sees. */
  lemma ErrorTexts()
    ensures ErrorText(InvalidReference) == "invalid_reference" && ErrorText(ImageUnsigned) == "image_unsigned"
    ensures ErrorText(InvalidSignature) == "invalid_signature" && ErrorText(NoError) == ""
    ensures forall k :: ErrorText(ErrorFetchingBundle(k)) == "error_fetching_bundle_" + KindName(k)
  {
  }

  datatype Item = Item(key: string, value: seq<Verified>, error: ItemError)

  datatype SystemError =
    | NoSystemError
    | KeyChainError
    | FetchAborted(key: string, reason: Kind, step: Step)
    | VerificationError(key: string)

  datatype Response = Response(items: seq<Item>, systemError: SystemError)

  /** The configured verifier: trust roots, or any other implementation of the interface, which may also fail. */
  datatype VerifierView =
    | TrustRoots(check: Check, roots: seq<Root>)
    | AnyVerifier(verify: (seq<Bundle>, Digest) -> Option<seq<Verified>>)
  {
    function Run(bs: seq<Bundle>, d: Digest): Option<seq<Verified>> {
      match this
      case TrustRoots(check, roots) => Some(FilterMap(check, roots, bs, d))
      case AnyVerifier(f) => f(bs, d)
    }
  }

  datatype Verdict = Answer(item: Item) | Abort(err: SystemError)

  /** What a failed fetch says about an image: an undecodable bundle is an answer, anything else is not. */
  function JudgeFailure(key: string, f: FetchFailure): Verdict {
    var reason := if f.kind == Unset then Unknown else f.kind;
    if f.kind == BundleInvalid then Answer(Item(key, [], ErrorFetchingBundle(reason)))
    else Abort(FetchAborted(key, reason, f.step))
  }

  function JudgeBundles(verifier: VerifierView, key: string, bundles: seq<Bundle>, digest: Digest): Verdict {
    match verifier.Run(bundles, digest)
    case None => Abort(VerificationError(key))
    case Some(res) => Answer(Item(key, res, if res == [] then InvalidSignature else NoError))
  }

  function Judge(v: VerifierView, k: KeyAnswer): Verdict
    requires k.DigestSafe()
  {
    if !k.parses then Answer(Item(k.key, [], InvalidReference))
    else if k.fetch.err.Some? then JudgeFailure(k.key, k.fetch.err.value)
    else if k.fetch.bundles == [] then Answer(Item(k.key, [], ImageUnsigned))
    else JudgeBundles(v, k.key, k.fetch.bundles, k.fetch.digest.value)
  }

  /** Earlier items in front of a later response; a verification error drops them. */
  function Behind(items: seq<Item>, r: Response): Response {
    if r.systemError.VerificationError? then r else r.(items := items + r.items)
  }

  function Process(v: VerifierView, ks: seq<KeyAnswer>): Response
    requires AllDigestSafe(ks)
  {
    if ks == [] then Response([], NoSystemError)
    else match Judge(v, ks[0])
      case Abort(err) => Response([], err)
      case Answer(item) => Behind([item], Process(v, ks[1..]))
  }

  function ValidateSpec(v: VerifierView, keyChainOk: bool, ks: seq<KeyAnswer>): Response
    requires AllDigestSafe(ks)
  {
    if keyChainOk then Process(v, ks) else Response([], KeyChainError)
  }

  // ---- Counters ----

  datatype Counters = Counters(
    fetches: nat, fetchFailures: nat, retrieved: nat, missing: nat, verifiedOk: nat, verifiedFail: nat,
    requestsOk: nat, requestsFailed: nat)
  {
    function Plus(c: Counters): Counters {
      Counters(fetches + c.fetches, fetchFailures + c.fetchFailures, retrieved + c.retrieved, missing + c.missing,
               verifiedOk + c.verifiedOk, verifiedFail + c.verifiedFail,
               requestsOk + c.requestsOk, requestsFailed + c.requestsFailed)
    }
  }

  const ZERO := Counters(0, 0, 0, 0, 0, 0, 0, 0)

  function CountVerification(verifier: VerifierView, bundles: seq<Bundle>, digest: Digest): Counters {
    match verifier.Run(bundles, digest)
    case None => ZERO
    case Some(res) =>
      ZERO.(verifiedOk := |res|, verifiedFail := if |bundles| > |res| then |bundles| - |res| else 0)
  }

  function CountsOf(v: VerifierView, k: KeyAnswer): Counters
    requires k.DigestSafe()
  {
    if !k.parses then ZERO
    else if k.fetch.err.Some? then ZERO.(fetches := 1, fetchFailures := 1)
    else if k.fetch.bundles == [] then ZERO.(fetches := 1, missing := 1)
    else
      ZERO.(fetches := 1, retrieved := |k.fetch.bundles|)
          .Plus(CountVerification(v, k.fetch.bundles, k.fetch.digest.value))
  }

  /** The counts of the first keys. */
  function Spent(v: VerifierView, ks: seq<KeyAnswer>, n: nat): Counters
    requires n <= |ks| && AllDigestSafe(ks)
  {
    if n == 0 then ZERO else Spent(v, ks, n - 1).Plus(CountsOf(v, ks[n - 1]))
  }

  /** The position of the first key that aborts the request, or the number of keys. */
  function FirstAbort(v: VerifierView, ks: seq<KeyAnswer>): (n: nat)
    requires AllDigestSafe(ks)
    ensures n <= |ks|
  {
    if ks == [] || Judge(v, ks[0]).Abort? then 0 else 1 + FirstAbort(v, ks[1..])
  }

  /** The number of keys handled: those answered, and the aborting one. */
  function Handled(v: VerifierView, ks: seq<KeyAnswer>): (n: nat)
    requires AllDigestSafe(ks)
    ensures n <= |ks|
  {
    if FirstAbort(v, ks) < |ks| then FirstAbort(v, ks) + 1 else |ks|
  }

  function Tally(v: VerifierView, ks: seq<KeyAnswer>): Counters
    requires AllDigestSafe(ks)
  {
    Spent(v, ks, Handled(v, ks))
  }

  function RequestOutcome(systemError: SystemError): Counters {
    if systemError == NoSystemError then ZERO.(requestsOk := 1) else ZERO.(requestsFailed := 1)
  }

  /** Every counter's growth over one request, the request timer's two outcomes included. */
  function RequestTally(v: VerifierView, keyChainOk: bool, ks: seq<KeyAnswer>): Counters
    requires AllDigestSafe(ks)
  {
    if keyChainOk then Tally(v, ks).Plus(RequestOutcome(Process(v, ks).systemError))
    else RequestOutcome(KeyChainError)
  }

  /** The provider's counters. */
  class Metrics {
    var c: Counters

    constructor ()
      ensures c == ZERO
    {
      c := ZERO;
    }
  }

  // ---- The request loop ----

  datatype Verifier =
    | UseMulti(check: Check, m: Multi)
    | UseOther(verify: (seq<Bundle>, Digest) -> Option<seq<Verified>>)

  ghost function ViewOf(v: Verifier): VerifierView
  {
    match v
    case UseMulti(check, m) => TrustRoots(check, m.v)
    case UseOther(f) => AnyVerifier(f)
  }

  method RunVerifier(v: Verifier, bundles: seq<Bundle>, d: Digest) returns (r: Option<seq<Verified>>)
    ensures r == ViewOf(v).Run(bundles, d)
  {
    match v
    case UseMulti(check, m) =>
      var res := m.Verify(check, bundles, d);
      r := Some(res);
    case UseOther(f) =>
      r := f(bundles, d);
  }

  /** The verification half of a turn. */
  method ValidateBundles(metrics: Metrics, v: Verifier, key: string, bundles: seq<Bundle>, d: Digest,
                         ghost view: VerifierView)
    returns (verdict: Verdict)
    requires view == ViewOf(v)
    modifies metrics
    ensures verdict == JudgeBundles(view, key, bundles, d)
    ensures metrics.c == old(metrics.c).Plus(CountVerification(view, bundles, d))
  {
    var res := RunVerifier(v, bundles, d);
    if res.None? {
      return Abort(VerificationError(key));
    }
    metrics.c := metrics.c.(verifiedOk := metrics.c.verifiedOk + |res.value|);
    var fail := |bundles| - |res.value|;
    if fail > 0 {
      metrics.c := metrics.c.(verifiedFail := metrics.c.verifiedFail + fail);
    }
    if |res.value| > 0 {
      return Answer(Item(key, res.value, NoError));
    }
    return Answer(Item(key, [], InvalidSignature));
  }

  /** Each key comes with enough rounds for the configured attempts. */
  predicate Scripted(cfg: Config, req: seq<KeyRun>) {
    forall i :: 0 <= i < |req| ==> cfg.maxAttempts <= |req[i].rounds|
  }

  function AnswerOf(cfg: Config, kr: KeyRun): (k: KeyAnswer)
    requires cfg.maxAttempts <= |kr.rounds|
    ensures k.DigestSafe()
  {
    var r := Fetch(cfg, kr.rounds);
    if r.err.None? then FetchSuccessMeaning(cfg, kr.rounds); KeyAnswer(kr.key, kr.parses, r)
    else KeyAnswer(kr.key, kr.parses, r)
  }

  /** The request with every fetch run: never a bundle without a digest. */
  function Answers(cfg: Config, req: seq<KeyRun>): (ks: seq<KeyAnswer>)
    requires Scripted(cfg, req)
    ensures |ks| == |req| && forall i :: 0 <= i < |req| ==> ks[i] == AnswerOf(cfg, req[i])
    ensures AllDigestSafe(ks)
  {
    if req == [] then [] else Answers(cfg, req[..|req| - 1]) + [AnswerOf(cfg, req[|req| - 1])]
  }

  /** One turn of the request loop. */
  method ValidateKey(metrics: Metrics, cfg: Config, v: Verifier, kr: KeyRun, ghost view: VerifierView,
                     ghost k: KeyAnswer)
    returns (verdict: Verdict)
    requires cfg.maxAttempts <= |kr.rounds| && k == AnswerOf(cfg, kr) && view == ViewOf(v)
    modifies metrics
    ensures verdict == Judge(view, k)
    ensures metrics.c == old(metrics.c).Plus(CountsOf(view, k))
  {
    if !kr.parses {
      return Answer(Item(kr.key, [], InvalidReference));
    }
    var result := BundleFromName(cfg, kr.rounds);
    assert ResultOf(result) == k.fetch;
    metrics.c := metrics.c.(fetches := metrics.c.fetches + 1);
    if result.err != null {
      metrics.c := metrics.c.(fetchFailures := metrics.c.fetchFailures + 1);
      var reason := result.err.kind;
      if reason == Unset {
        reason := Unknown;
      }
      if result.err.kind == BundleInvalid {
        return Answer(Item(kr.key, [], ErrorFetchingBundle(reason)));
      }
      return Abort(FetchAborted(kr.key, reason, result.err.step));
    }
    metrics.c := metrics.c.(retrieved := metrics.c.retrieved + |result.bundles|);
    if |result.bundles| == 0 {
      metrics.c := metrics.c.(missing := metrics.c.missing + 1);
      return Answer(Item(kr.key, [], ImageUnsigned));
    }
    verdict := ValidateBundles(metrics, v, kr.key, result.bundles, result.digest.value, view);
  }

  /** The request loop. */
  method ValidateKeys(metrics: Metrics, cfg: Config, v: Verifier, req: seq<KeyRun>, ghost view: VerifierView,
                      ghost ks: seq<KeyAnswer>)
    returns (resp: Response)
    requires Scripted(cfg, req) && ks == Answers(cfg, req) && view == ViewOf(v)
    modifies metrics
    ensures resp == Process(view, ks)
    ensures metrics.c == old(metrics.c).Plus(Tally(view, ks))
  {
    var results: seq<Item> := [];
    var i := 0;
    PlusZero(metrics.c);
    while i < |req|
      invariant i <= |req|
      invariant Upto(view, ks, i) == Some(results)
      invariant metrics.c == old(metrics.c).Plus(Spent(view, ks, i))
    {
      var verdict := ValidateNext(metrics, cfg, v, req, i, view, ks, results, old(metrics.c));
      if verdict.Abort? {
        return if verdict.err.VerificationError? then Response([], verdict.err) else Response(results, verdict.err);
      }
      results := results + [verdict.item];
      i := i + 1;
    }
    AtEnd(view, ks);
    return Response(results, NoSystemError);
  }

  /** One turn of the loop, with the counters since the start of the request. */
  method ValidateNext(metrics: Metrics, cfg: Config, v: Verifier, req: seq<KeyRun>, i: nat, ghost view: VerifierView,
                      ghost ks: seq<KeyAnswer>, ghost results: seq<Item>, ghost start: Counters)
    returns (verdict: Verdict)
    requires Scripted(cfg, req) && ks == Answers(cfg, req) && view == ViewOf(v) && i < |req|
    requires metrics.c == start.Plus(Spent(view, ks, i)) && Upto(view, ks, i) == Some(results)
    modifies metrics
    ensures metrics.c == start.Plus(Spent(view, ks, i + 1))
    ensures match verdict
            case Answer(item) => Upto(view, ks, i + 1) == Some(results + [item])
            case Abort(err) =>
              && Process(view, ks) == (if err.VerificationError? then Response([], err) else Response(results, err))
              && Handled(view, ks) == i + 1
  {
    PlusIsAssociative(start, Spent(view, ks, i), CountsOf(view, ks[i]));
    verdict := ValidateKey(metrics, cfg, v, req[i], view, ks[i]);
    if verdict.Abort? {
      AtAbort(view, ks, i);
    }
  }

  /** The results after the first keys, or None when one of them aborts. */
  function Upto(v: VerifierView, ks: seq<KeyAnswer>, i: nat): Option<seq<Item>>
    requires i <= |ks| && AllDigestSafe(ks)
  {
    if i == 0 then Some([])
    else
      match Upto(v, ks, i - 1)
      case None => None
      case Some(results) =>
        match Judge(v, ks[i - 1])
        case Abort(_) => None
        case Answer(item) => Some(results + [item])
  }

  lemma {:induction false} UptoOfProcess(v: VerifierView, ks: seq<KeyAnswer>, i: nat)
    requires i <= |ks| && AllDigestSafe(ks)
    ensures Upto(v, ks, i).Some? ==> Process(v, ks) == Behind(Upto(v, ks, i).value, Process(v, ks[i..]))
    ensures Upto(v, ks, i).Some? ==> FirstAbort(v, ks) == i + FirstAbort(v, ks[i..])
  {
    if i == 0 {
      BehindNothing(Process(v, ks));
      assert ks[0..] == ks;
    } else if Upto(v, ks, i).Some? {
      UptoOfProcess(v, ks, i - 1);
      ProcessStep(v, ks, i - 1, Upto(v, ks, i - 1).value);
      assert ks[i - 1..][1..] == ks[i..];
    }
  }

  lemma AtAbort(v: VerifierView, ks: seq<KeyAnswer>, i: nat)
    requires i < |ks| && AllDigestSafe(ks) && Upto(v, ks, i).Some? && Judge(v, ks[i]).Abort?
    ensures var err := Judge(v, ks[i]).err;
            Process(v, ks) == if err.VerificationError? then Response([], err) else Response(Upto(v, ks, i).value, err)
    ensures Handled(v, ks) == i + 1
  {
    UptoOfProcess(v, ks, i);
    ProcessStep(v, ks, i, Upto(v, ks, i).value);
  }

  lemma AtEnd(v: VerifierView, ks: seq<KeyAnswer>)
    requires AllDigestSafe(ks) && Upto(v, ks, |ks|).Some?
    ensures Process(v, ks) == Response(Upto(v, ks, |ks|).value, NoSystemError)
    ensures Handled(v, ks) == |ks|
  {
    UptoOfProcess(v, ks, |ks|);
    assert ks[|ks|..] == [];
    BehindTheEnd(Upto(v, ks, |ks|).value);
  }

  /** The deferred observation of the request timer. */
  method ObserveRequest(metrics: Metrics, systemError: SystemError)
    modifies metrics
    ensures metrics.c == old(metrics.c).Plus(RequestOutcome(systemError))
  {
    if systemError == NoSystemError {
      metrics.c := metrics.c.(requestsOk := metrics.c.requestsOk + 1);
    } else {
      metrics.c := metrics.c.(requestsFailed := metrics.c.requestsFailed + 1);
    }
  }

  method Validate(metrics: Metrics, cfg: Config, v: Verifier, keyChainOk: bool, req: seq<KeyRun>)
    returns (resp: Response)
    requires Scripted(cfg, req)
    modifies metrics
    ensures resp == ValidateSpec(ViewOf(v), keyChainOk, Answers(cfg, req))
    ensures metrics.c == old(metrics.c).Plus(RequestTally(ViewOf(v), keyChainOk, Answers(cfg, req)))
  {
    ghost var ks := Answers(cfg, req);
    if !keyChainOk {
      ObserveRequest(metrics, KeyChainError);
      return Response([], KeyChainError);
    }
    ghost var view := ViewOf(v);
    resp := ValidateKeys(metrics, cfg, v, req, view, ks);
    PlusIsAssociative(old(metrics.c), Tally(view, ks), RequestOutcome(resp.systemError));
    ObserveRequest(metrics, resp.systemError);
  }

  lemma PlusIsAssociative(a: Counters, b: Counters, c: Counters)
    ensures a.Plus(b).Plus(c) == a.Plus(b.Plus(c))
  {
  }

  lemma PlusZero(c: Counters)
    ensures c.Plus(ZERO) == c == ZERO.Plus(c)
  {
  }

  lemma ProcessStep(v: VerifierView, ks: seq<KeyAnswer>, i: nat, results: seq<Item>)
    requires i < |ks| && AllDigestSafe(ks)
    requires Process(v, ks) == Behind(results, Process(v, ks[i..]))
    ensures match Judge(v, ks[i])
            case Abort(err) =>
              Process(v, ks) == if err.VerificationError? then Response([], err) else Response(results, err)
            case Answer(item) =>
              Process(v, ks) == Behind(results + [item], Process(v, ks[i + 1..]))
  {
    assert ks[i..][1..] == ks[i + 1..];
    if Judge(v, ks[i]).Answer? {
      BehindTwice(results, [Judge(v, ks[i]).item], Process(v, ks[i + 1..]));
    } else {
      assert results + [] == results;
    }
  }

  lemma BehindNothing(r: Response)
    ensures Behind([], r) == r
  {
    assert [] + r.items == r.items;
  }

  lemma BehindTheEnd(items: seq<Item>)
    ensures Behind(items, Response([], NoSystemError)) == Response(items, NoSystemError)
  {
    assert items + [] == items;
  }

  lemma BehindTwice(a: seq<Item>, b: seq<Item>, r: Response)
    ensures Behind(a, Behind(b, r)) == Behind(a + b, r)
  {
    assert a + (b + r.items) == a + b + r.items;
  }
}

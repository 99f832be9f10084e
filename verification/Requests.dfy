/** Laws of whole requests: which outcomes become items, how requests compose, and how the counters balance. */
module Requests {
  import opened Common
  import opened Failures
  import opened Registry
  import opened Fetching
  import opened Verifying
  import opened Provider

  /** A response holds exactly the verdicts of the keys before the first abort, in request order, and its system error
      is that abort's; a verification error drops the items. */
  lemma {:induction false} ProcessMeaning(v: VerifierView, ks: seq<KeyAnswer>)
    requires AllDigestSafe(ks)
    ensures var n, r := FirstAbort(v, ks), Process(v, ks);
            && (forall j :: 0 <= j < n ==> Judge(v, ks[j]).Answer? && Judge(v, ks[j]).item.key == ks[j].key)
            && (n < |ks| ==> Judge(v, ks[n]).Abort?)
            && r.systemError == (if n == |ks| then NoSystemError else Judge(v, ks[n]).err)
            && (r.systemError.VerificationError? ==> r.items == [])
            && (!r.systemError.VerificationError? ==>
                  |r.items| == n && forall j :: 0 <= j < n ==> r.items[j] == Judge(v, ks[j]).item)
  {
    FirstAbortMeaning(v, ks);
    if ks != [] && Judge(v, ks[0]).Answer? {
      var rest := ks[1..];
      ProcessMeaning(v, rest);
      assert forall j :: 1 <= j < |ks| ==> ks[j] == rest[j - 1];
    }
  }

  lemma {:induction false} FirstAbortMeaning(v: VerifierView, ks: seq<KeyAnswer>)
    requires AllDigestSafe(ks)
    ensures var n := FirstAbort(v, ks);
            && (forall j :: 0 <= j < n ==> Judge(v, ks[j]).Answer? && Judge(v, ks[j]).item.key == ks[j].key)
            && (n < |ks| ==> Judge(v, ks[n]).Abort?)
  {
    if ks != [] && Judge(v, ks[0]).Answer? {
      var rest := ks[1..];
      FirstAbortMeaning(v, rest);
      assert forall j :: 1 <= j < |ks| ==> ks[j] == rest[j - 1];
    }
  }

  /** Compositionality: when the first part completes, the answer to both parts is the first part's items followed by
      the answer to the second; when it does not, the second part is not looked at. */
  lemma {:induction false} ProcessOfConcat(v: VerifierView, xs: seq<KeyAnswer>, ys: seq<KeyAnswer>)
    requires AllDigestSafe(xs) && AllDigestSafe(ys)
    ensures AllDigestSafe(xs + ys)
    ensures Process(v, xs + ys) ==
            if Process(v, xs).systemError == NoSystemError then Behind(Process(v, xs).items, Process(v, ys))
            else Process(v, xs)
  {
    if xs == [] {
      assert xs + ys == ys;
      BehindNothing(Process(v, ys));
    } else {
      var rest := xs[1..];
      assert (xs + ys)[1..] == rest + ys;
      assert AllDigestSafe(rest);
      ProcessOfConcat(v, rest, ys);
      if Judge(v, xs[0]).Answer? {
        BehindTwice([Judge(v, xs[0]).item], Process(v, rest).items, Process(v, ys));
      }
    }
  }

  /** Resume: a request aborted by a fetch at key `bad` answers exactly the keys before it; appending the items of a
      later request for the remaining keys, with the fetch of that key repaired, gives the answer an uninterrupted
      request would have given. */
  lemma ResumeAfterAbort(v: VerifierView, done: seq<KeyAnswer>, bad: KeyAnswer, skipped: seq<KeyAnswer>,
                         rest: seq<KeyAnswer>)
    requires AllDigestSafe(done) && bad.DigestSafe() && AllDigestSafe(skipped) && AllDigestSafe(rest)
    requires Process(v, done).systemError == NoSystemError
    requires Judge(v, bad).Abort? && Judge(v, bad).err.FetchAborted?
    requires Process(v, rest).systemError == NoSystemError
    ensures AllDigestSafe(done + ([bad] + skipped)) && AllDigestSafe(done + rest)
    ensures var first := Process(v, done + ([bad] + skipped));
            && first == Response(Process(v, done).items, Judge(v, bad).err)
            && Process(v, done + rest) == Response(first.items + Process(v, rest).items, NoSystemError)
  {
    assert AllDigestSafe([bad] + skipped);
    ProcessOfConcat(v, done, [bad] + skipped);
    ProcessOfConcat(v, done, rest);
    assert ([bad] + skipped)[0] == bad;
    assert Process(v, done).items + [] == Process(v, done).items;
  }

  // ---- Conservation ----

  function Parseable(ks: seq<KeyAnswer>): nat {
    if ks == [] then 0 else Parseable(ks[..|ks| - 1]) + if ks[|ks| - 1].parses then 1 else 0
  }

  /** The keys handled are those up to and including the first that aborts, or all of them. */
  lemma HandledMeaning(v: VerifierView, ks: seq<KeyAnswer>)
    requires AllDigestSafe(ks)
    ensures var h := Handled(v, ks);
            && (ks != [] ==> 0 < h)
            && (forall j :: 0 <= j < h - 1 ==> Judge(v, ks[j]).Answer?)
            && (h < |ks| ==> Judge(v, ks[h - 1]).Abort?)
  {
    FirstAbortMeaning(v, ks);
  }

  /** Counters that balance: `n` fetches, no request observed yet, and with trust roots as many bundles retrieved as
      counted verified or failed. */
  predicate Balanced(v: VerifierView, t: Counters, n: nat) {
    && t.requestsOk == 0 && t.requestsFailed == 0 && t.fetches == n
    && (v.TrustRoots? ==> t.retrieved == t.verifiedOk + t.verifiedFail)
  }

  lemma BalancedPlus(v: VerifierView, a: Counters, m: nat, b: Counters, n: nat)
    requires Balanced(v, a, m) && Balanced(v, b, n)
    ensures Balanced(v, a.Plus(b), m + n)
  {
  }

  lemma KeyCounts(v: VerifierView, k: KeyAnswer)
    requires k.DigestSafe()
    ensures Balanced(v, CountsOf(v, k), if k.parses then 1 else 0)
  {
    if v.TrustRoots? && k.parses && k.fetch.err.None? && k.fetch.bundles != [] {
      ResultCount(v.check, v.roots, k.fetch.bundles, k.fetch.digest.value);
    }
  }

  lemma {:induction false} SpentIsBalanced(v: VerifierView, ks: seq<KeyAnswer>, n: nat)
    requires n <= |ks| && AllDigestSafe(ks)
    ensures Balanced(v, Spent(v, ks, n), Parseable(ks[..n]))
  {
    if n > 0 {
      SpentIsBalanced(v, ks, n - 1);
      KeyCounts(v, ks[n - 1]);
      var k := ks[n - 1];
      BalancedPlus(v, Spent(v, ks, n - 1), Parseable(ks[..n - 1]), CountsOf(v, k), if k.parses then 1 else 0);
      assert ks[..n][..n - 1] == ks[..n - 1];
    }
  }

  function Total(ks: seq<KeyAnswer>, f: KeyAnswer -> nat): nat {
    if ks == [] then 0 else Total(ks[..|ks| - 1], f) + f(ks[|ks| - 1])
  }

  function FailedFetch(k: KeyAnswer): nat {
    if k.parses && k.fetch.err.Some? then 1 else 0
  }

  function Unsigned(k: KeyAnswer): nat {
    if k.parses && k.fetch.err.None? && k.fetch.bundles == [] then 1 else 0
  }

  function BundlesOf(k: KeyAnswer): nat {
    if k.parses && k.fetch.err.None? then |k.fetch.bundles| else 0
  }

  /** The bundles of an image that some root accepts. */
  function AcceptedOf(check: Check, roots: seq<Root>): KeyAnswer -> nat {
    k => if BundlesOf(k) == 0 || k.fetch.digest.None? then 0
         else AcceptedCount(check, roots, k.fetch.bundles, k.fetch.digest.value)
  }

  /** What each counter counts, for the keys handled: failed fetches, images without bundles, bundles, and of these the
      accepted and the rejected ones. */
  predicate CountsRight(check: Check, roots: seq<Root>, c: Counters, ks: seq<KeyAnswer>) {
    && c.fetchFailures == Total(ks, FailedFetch)
    && c.missing == Total(ks, Unsigned)
    && c.retrieved == Total(ks, BundlesOf)
    && c.verifiedOk == Total(ks, AcceptedOf(check, roots))
    && c.verifiedFail == c.retrieved - c.verifiedOk
  }

  lemma KeyCountsRight(check: Check, roots: seq<Root>, k: KeyAnswer)
    requires k.DigestSafe()
    ensures var c := CountsOf(TrustRoots(check, roots), k);
            && c.fetchFailures == FailedFetch(k) && c.missing == Unsigned(k) && c.retrieved == BundlesOf(k)
            && c.verifiedOk == AcceptedOf(check, roots)(k)
            && c.verifiedFail == BundlesOf(k) - AcceptedOf(check, roots)(k)
  {
    if k.fetch.err.None? && k.fetch.bundles != [] {
      ResultCount(check, roots, k.fetch.bundles, k.fetch.digest.value);
    }
  }

  lemma {:induction false} SpentCountsRight(check: Check, roots: seq<Root>, ks: seq<KeyAnswer>, n: nat)
    requires n <= |ks| && AllDigestSafe(ks)
    ensures CountsRight(check, roots, Spent(TrustRoots(check, roots), ks, n), ks[..n])
  {
    if n > 0 {
      SpentCountsRight(check, roots, ks, n - 1);
      KeyCountsRight(check, roots, ks[n - 1]);
      assert ks[..n][..n - 1] == ks[..n - 1];
    }
  }

  /** The counters of a whole request with the trust roots as verifier. */
  lemma RequestCountsRight(check: Check, roots: seq<Root>, ks: seq<KeyAnswer>)
    requires AllDigestSafe(ks)
    ensures var v := TrustRoots(check, roots);
            CountsRight(check, roots, RequestTally(v, true, ks), ks[..Handled(v, ks)])
  {
    SpentCountsRight(check, roots, ks, Handled(TrustRoots(check, roots), ks));
  }

  /** Conservation: over every request, with the trust roots as verifier, as many bundles are retrieved as are counted
      verified or failed; the fetcher is called once for each parseable key up to and including the aborting one; and
      the request timer is observed exactly once, as a failure exactly when there is a system error. */
  lemma RequestConservation(v: VerifierView, keyChainOk: bool, ks: seq<KeyAnswer>)
    requires AllDigestSafe(ks)
    ensures var t := RequestTally(v, keyChainOk, ks);
            var failed := ValidateSpec(v, keyChainOk, ks).systemError != NoSystemError;
            && (v.TrustRoots? ==> t.retrieved == t.verifiedOk + t.verifiedFail)
            && t.fetches == (if keyChainOk then Parseable(ks[..Handled(v, ks)]) else 0)
            && t.requestsOk + t.requestsFailed == 1
            && (t.requestsFailed == 1 <==> failed)
  {
    SpentIsBalanced(v, ks, Handled(v, ks));
  }

  // ---- Which failures become items ----

  /** Only decode failures become cacheable fetch verdicts: over every run of fetch and retry, an item is a fetch error
      exactly when its image's last attempt read a layer and could not decode it, whatever happened to the parent
      context; and then its reason is the invalid bundle. */
  lemma {:induction false} FetchErrorItemIff(cfg: Config, v: VerifierView, req: seq<KeyRun>, j: nat)
    requires Scripted(cfg, req)
    requires j < |Process(v, Answers(cfg, req)).items|
    ensures j < |req|
    ensures var item := Process(v, Answers(cfg, req)).items[j];
            && item.key == req[j].key
            && (item.error.ErrorFetchingBundle? <==> req[j].parses && LastAttemptUndecodable(cfg, req[j]))
            && (item.error.ErrorFetchingBundle? ==> item.error.reason == BundleInvalid)
  {
    var ks := Answers(cfg, req);
    ProcessMeaning(v, ks);
    InvalidBundleIff(cfg, req[j].rounds);
    FetchErrorVerdict(v, ks[j]);
  }

  /** The last attempt read the index and found no sigstore referrer in it. */
  predicate FoundNoBundles(cfg: Config, kr: KeyRun)
    requires cfg.maxAttempts <= |kr.rounds|
  {
    var s := Deciding(cfg, kr.rounds);
    && s.Some? && s.value.IndexRead()
    && forall i :: 0 <= i < |s.value.manifest.value| ==> !IsSigstore(s.value.manifest.value[i].artifactType)
  }

  /** The last attempt read the index and every sigstore referrer, of which there are some. */
  predicate FoundBundles(cfg: Config, kr: KeyRun)
    requires cfg.maxAttempts <= |kr.rounds|
  {
    var s := Deciding(cfg, kr.rounds);
    && s.Some? && s.value.IndexRead()
    && (forall i :: 0 <= i < |s.value.manifest.value| ==> Readable(s.value.manifest.value[i]))
    && (exists i :: 0 <= i < |s.value.manifest.value| && IsSigstore(s.value.manifest.value[i].artifactType))
  }

  /** Some root accepts one of the bundles the last attempt read, against the digest it resolved. */
  predicate SomeAccepted(cfg: Config, check: Check, roots: seq<Root>, kr: KeyRun)
    requires cfg.maxAttempts <= |kr.rounds| && FoundBundles(cfg, kr)
  {
    var s := Deciding(cfg, kr.rounds).value;
    exists b :: b in Attestations(s.manifest.value) && Accepted(check, roots, b, s.descriptor.value)
  }

  lemma {:induction false} FoundIff(cfg: Config, kr: KeyRun)
    requires cfg.maxAttempts <= |kr.rounds|
    ensures var f := Fetch(cfg, kr.rounds);
            && (FoundNoBundles(cfg, kr) <==> f.err.None? && f.bundles == [])
            && (FoundBundles(cfg, kr) <==> f.err.None? && f.bundles != [])
            && (FoundBundles(cfg, kr) ==>
                  var s := Deciding(cfg, kr.rounds).value;
                  f.bundles == Attestations(s.manifest.value) && f.digest == Some(s.descriptor.value))
  {
    FetchSuccessIff(cfg, kr.rounds);
    var s := Deciding(cfg, kr.rounds);
    if s.Some? && s.value.IndexRead() {
      var refs := s.value.manifest.value;
      if forall i :: 0 <= i < |refs| ==> Readable(refs[i]) {
        NoAttestationsIff(refs);
        FetchSuccessMeaning(cfg, kr.rounds);
      }
    }
  }

  /** With any verifier: its error aborts the request and counts nothing as verified or failed; otherwise its results
      are the item, without an error exactly when there are any, and the rest of the bundles count as failed. */
  lemma AnyVerifierTable(v: VerifierView, k: KeyAnswer)
    requires k.DigestSafe() && k.parses && k.fetch.err.None? && k.fetch.bundles != []
    ensures var res, verdict, c := v.Run(k.fetch.bundles, k.fetch.digest.value), Judge(v, k), CountsOf(v, k);
            if res.None? then verdict == Abort(VerificationError(k.key)) && c.verifiedOk == c.verifiedFail == 0
            else
              && verdict == Answer(Item(k.key, res.value, if res.value == [] then InvalidSignature else NoError))
              && c.verifiedOk == |res.value|
              && c.verifiedFail == if |k.fetch.bundles| > |res.value| then |k.fetch.bundles| - |res.value| else 0
  {
  }

  /** The verdict on one image, case by case. */
  lemma {:induction false} VerdictTable(check: Check, roots: seq<Root>, k: KeyAnswer)
    requires k.DigestSafe()
    ensures var verdict := Judge(TrustRoots(check, roots), k);
            if !k.parses then verdict == Answer(Item(k.key, [], InvalidReference))
            else if k.fetch.err.Some? then
              var f := k.fetch.err.value;
              if f.kind == BundleInvalid then verdict == Answer(Item(k.key, [], ErrorFetchingBundle(BundleInvalid)))
              else verdict == Abort(FetchAborted(k.key, if f.kind == Unset then Unknown else f.kind, f.step))
            else if k.fetch.bundles == [] then verdict == Answer(Item(k.key, [], ImageUnsigned))
            else
              var res := FilterMap(check, roots, k.fetch.bundles, k.fetch.digest.value);
              verdict == Answer(Item(k.key, res,
                if exists b :: b in k.fetch.bundles && Accepted(check, roots, b, k.fetch.digest.value)
                then NoError else InvalidSignature))
  {
    if k.fetch.err.None? && k.fetch.bundles != [] {
      var bs, d := k.fetch.bundles, k.fetch.digest.value;
      ResultCount(check, roots, bs, d);
      if b :| b in bs && Accepted(check, roots, b, d) {
        var i :| 0 <= i < |bs| && bs[i] == b;
        assert Accepted(check, roots, bs[i], d);
      }
    }
  }

  /** What each error of an item says about the image, over every run of fetch and retry. */
  lemma {:induction false} ItemErrorIff(cfg: Config, check: Check, roots: seq<Root>, req: seq<KeyRun>, j: nat)
    requires Scripted(cfg, req)
    requires j < |Process(TrustRoots(check, roots), Answers(cfg, req)).items|
    ensures j < |req|
    ensures var item := Process(TrustRoots(check, roots), Answers(cfg, req)).items[j];
            && item.key == req[j].key
            && (item.error == InvalidReference <==> !req[j].parses)
            && (item.error == ImageUnsigned <==> req[j].parses && FoundNoBundles(cfg, req[j]))
            && (item.error == InvalidSignature <==>
                req[j].parses && FoundBundles(cfg, req[j]) && !SomeAccepted(cfg, check, roots, req[j]))
            && (item.error == NoError <==>
                req[j].parses && FoundBundles(cfg, req[j]) && SomeAccepted(cfg, check, roots, req[j]))
            && (item.error != NoError ==> item.value == [])
  {
    var v, ks := TrustRoots(check, roots), Answers(cfg, req);
    ProcessMeaning(v, ks);
    VerdictTable(check, roots, ks[j]);
    FoundIff(cfg, req[j]);
    if ks[j].fetch.err.None? && ks[j].fetch.bundles != [] {
      ResultCount(check, roots, ks[j].fetch.bundles, ks[j].fetch.digest.value);
    }
  }

  /** An abort names the first image whose fetch failed for another reason, with that error's own kind, an empty one
      read as unknown, and step. */
  lemma {:induction false} AbortMeaning(cfg: Config, check: Check, roots: seq<Root>, req: seq<KeyRun>)
    requires Scripted(cfg, req)
    requires Process(TrustRoots(check, roots), Answers(cfg, req)).systemError != NoSystemError
    ensures var r := Process(TrustRoots(check, roots), Answers(cfg, req));
            var n := |r.items|;
            && n < |req| && req[n].parses && Fetch(cfg, req[n].rounds).err.Some?
            && var f := Fetch(cfg, req[n].rounds).err.value;
            && f.kind != BundleInvalid
            && r.systemError == FetchAborted(req[n].key, if f.kind == Unset then Unknown else f.kind, f.step)
  {
    var v, ks := TrustRoots(check, roots), Answers(cfg, req);
    ProcessMeaning(v, ks);
    VerdictTable(check, roots, ks[FirstAbort(v, ks)]);
  }

  predicate LastAttemptUndecodable(cfg: Config, kr: KeyRun)
    requires cfg.maxAttempts <= |kr.rounds|
  {
    var n := Fetch(cfg, kr.rounds).attempts;
    0 < n && ReadButUndecodable(kr.rounds[n - 1].script)
  }

  lemma FetchErrorVerdict(v: VerifierView, k: KeyAnswer)
    requires k.DigestSafe()
    ensures var verdict := Judge(v, k);
            && (verdict.Answer? && verdict.item.error.ErrorFetchingBundle? <==>
                k.parses && k.fetch.err.Some? && k.fetch.err.value.kind == BundleInvalid)
            && (verdict.Answer? && verdict.item.error.ErrorFetchingBundle? ==>
                  verdict.item.error.reason == BundleInvalid)
            && (verdict.Abort? && verdict.err.FetchAborted? <==>
                k.parses && k.fetch.err.Some? && k.fetch.err.value.kind != BundleInvalid)
  {
  }

  /** Every other fetch failure aborts: the response has a system error naming that key, and no item for that key or a
      later one. */
  lemma {:induction false} OtherFetchFailuresAbort(cfg: Config, v: VerifierView, req: seq<KeyRun>, j: nat)
    requires Scripted(cfg, req) && j < |req|
    requires req[j].parses && Fetch(cfg, req[j].rounds).err.Some? && !LastAttemptUndecodable(cfg, req[j])
    ensures var r := Process(v, Answers(cfg, req));
            r.systemError != NoSystemError && |r.items| <= j
    ensures var r := Process(v, Answers(cfg, req));
            |r.items| == j ==> r.systemError.FetchAborted? && r.systemError.key == req[j].key
  {
    var ks := Answers(cfg, req);
    InvalidBundleIff(cfg, req[j].rounds);
    FetchErrorVerdict(v, ks[j]);
    AbortLeavesNoLaterItem(v, ks, j);
  }

  lemma AbortLeavesNoLaterItem(v: VerifierView, ks: seq<KeyAnswer>, j: nat)
    requires AllDigestSafe(ks) && j < |ks| && Judge(v, ks[j]).Abort? && Judge(v, ks[j]).err.FetchAborted?
    ensures var r := Process(v, ks);
            && r.systemError != NoSystemError && |r.items| <= j
            && (|r.items| == j ==> r.systemError == Judge(v, ks[j]).err)
  {
    ProcessMeaning(v, ks);
    assert FirstAbort(v, ks) <= j;
  }

  /** Trust roots never produce a verification error. */
  lemma NoVerificationError(v: VerifierView, ks: seq<KeyAnswer>, n: nat)
    requires AllDigestSafe(ks) && v.TrustRoots? && n <= |ks|
    ensures n < |ks| && Judge(v, ks[n]).Abort? ==> Judge(v, ks[n]).err.FetchAborted?
  {
  }
}

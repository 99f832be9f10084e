/** The constraint template composed with the provider: what it means that an object is admitted. */
module Admission {
  import opened Common
  import opened Registry
  import opened Retry
  import opened Fetching
  import opened Verifying
  import opened Provider
  import opened Requests
  import opened Policy
  import opened Text

  /** What `external_data` hands to the template. Gatekeeper puts the items with an error in `errors` and the others in
      `responses`; this mapping is assumed of Gatekeeper. */
  datatype ExternalData = ExternalData(responses: Responses, errors: seq<(string, string)>, systemError: SystemError)

  function ResponsesOf(items: seq<Item>): Responses {
    if items == [] then []
    else
      var init, last := items[..|items| - 1], items[|items| - 1];
      ResponsesOf(init) + if ErrorText(last.error) == "" then [(last.key, last.value)] else []
  }

  function ErrorsOf(items: seq<Item>): seq<(string, string)> {
    if items == [] then []
    else
      var init, last := items[..|items| - 1], items[|items| - 1];
      ErrorsOf(init) + if ErrorText(last.error) == "" then [] else [(last.key, ErrorText(last.error))]
  }

  function Gatekeeper(r: Response): ExternalData {
    ExternalData(ResponsesOf(r.items), ErrorsOf(r.items), r.systemError)
  }

  /** The template's `response_with_error`: any of its three rules raises the violation. */
  predicate Violation(d: ExternalData, orgs: seq<string>, signerRepos: seq<string>) {
    || |d.errors| > 0
    || d.systemError != NoSystemError
    || !FromOrgWithSignerRepo(d.responses, orgs, signerRepos)
  }

  predicate Clean(items: seq<Item>) {
    forall j :: 0 <= j < |items| ==> items[j].error == NoError
  }

  lemma CleanOfSnoc(items: seq<Item>)
    requires items != []
    ensures Clean(items) <==> Clean(items[..|items| - 1]) && items[|items| - 1].error == NoError
  {
    var init := items[..|items| - 1];
    assert forall j :: 0 <= j < |init| ==> items[j] == init[j];
  }

  lemma {:induction false} NoErrorsIff(items: seq<Item>)
    ensures ErrorsOf(items) == [] <==> Clean(items)
  {
    if items != [] {
      NoErrorsIff(items[..|items| - 1]);
      CleanOfSnoc(items);
    }
  }

  lemma {:induction false} ResponsesOfClean(items: seq<Item>)
    requires Clean(items)
    ensures |ResponsesOf(items)| == |items|
    ensures forall j :: 0 <= j < |items| ==> ResponsesOf(items)[j] == (items[j].key, items[j].value)
  {
    if items != [] {
      CleanOfSnoc(items);
      ResponsesOfClean(items[..|items| - 1]);
    }
  }

  /** The image was fetched and one of its bundles is accepted by some trust root against its digest. */
  predicate ImageVerified(check: Check, roots: seq<Root>, k: KeyAnswer) {
    && k.parses && k.fetch.err.None? && k.fetch.digest.Some?
    && exists i :: 0 <= i < |k.fetch.bundles| && Accepted(check, roots, k.fetch.bundles[i], k.fetch.digest.value)
  }

  /** The bundle is, at the first root accepting it, an attestation with everything the rule asks. */
  predicate BundleCarries(check: Check, roots: seq<Root>, b: Bundle, d: Digest, orgs: seq<string>,
                          signerRepos: seq<string>)
  {
    var v := FirstAccepting(check, roots, b, d);
    v.Some? && Meets(v.value, orgs, signerRepos)
  }

  /** One of the image's bundles carries everything the rule asks. */
  predicate ImageCarries(check: Check, roots: seq<Root>, k: KeyAnswer, orgs: seq<string>, signerRepos: seq<string>) {
    && k.fetch.digest.Some?
    && exists i :: 0 <= i < |k.fetch.bundles|
                   && BundleCarries(check, roots, k.fetch.bundles[i], k.fetch.digest.value, orgs, signerRepos)
  }

  /** An image gets an item without an error exactly when it is verified, and the item then holds the results. */
  lemma CleanVerdictIff(check: Check, roots: seq<Root>, k: KeyAnswer)
    requires k.DigestSafe()
    ensures var verdict := Judge(TrustRoots(check, roots), k);
            && (verdict.Answer? && verdict.item.error == NoError <==> ImageVerified(check, roots, k))
            && (verdict.Answer? && verdict.item.error == NoError ==>
                  verdict.item.value == FilterMap(check, roots, k.fetch.bundles, k.fetch.digest.value))
  {
    if k.fetch.err.None? && k.fetch.bundles != [] {
      ResultCount(check, roots, k.fetch.bundles, k.fetch.digest.value);
    }
  }

  /** The item carries the attestation exactly when the image does. */
  lemma ItemCarriesIff(check: Check, roots: seq<Root>, bs: seq<Bundle>, d: Digest, orgs: seq<string>,
                       signerRepos: seq<string>)
    ensures SomeCarries(FilterMap(check, roots, bs, d), orgs, signerRepos) <==>
            exists i :: 0 <= i < |bs| && BundleCarries(check, roots, bs[i], d, orgs, signerRepos)
  {
    var res := FilterMap(check, roots, bs, d);
    if k :| 0 <= k < |res| && Carries(res[k], orgs, signerRepos) {
      CarriesIffMeets(res[k], orgs, signerRepos);
      ResultMembers(check, roots, bs, d, res[k]);
      assert res[k] in res;
    }
    if i :| 0 <= i < |bs| && BundleCarries(check, roots, bs[i], d, orgs, signerRepos) {
      var v := FirstAccepting(check, roots, bs[i], d).value;
      CarriesIffMeets(v, orgs, signerRepos);
      ResultMembers(check, roots, bs, d, v);
      assert v in res;
    }
  }

  /** The response for an image is its key with its verification results. */
  predicate Holds(check: Check, roots: seq<Root>, k: KeyAnswer, response: (string, seq<Verified>)) {
    && k.fetch.digest.Some?
    && response == (k.key, FilterMap(check, roots, k.fetch.bundles, k.fetch.digest.value))
  }

  /** Without errors, every key is answered and each response is that image's results. */
  lemma {:induction false} CleanResponse(check: Check, roots: seq<Root>, ks: seq<KeyAnswer>)
    requires AllDigestSafe(ks)
    ensures var d := Gatekeeper(Process(TrustRoots(check, roots), ks));
            && (d.errors == [] && d.systemError == NoSystemError <==>
                forall j :: 0 <= j < |ks| ==> ImageVerified(check, roots, ks[j]))
            && (d.errors == [] && d.systemError == NoSystemError ==>
                  && |d.responses| == |ks|
                  && forall j :: 0 <= j < |ks| ==> Holds(check, roots, ks[j], d.responses[j]))
  {
    var r := Process(TrustRoots(check, roots), ks);
    NoErrorsIff(r.items);
    VerifiedIffClean(check, roots, ks);
    if Clean(r.items) && r.systemError == NoSystemError {
      ResponsesOfClean(r.items);
    }
  }

  /** A request completes without an item error exactly when every image is verified; the items are then the results. */
  lemma {:induction false} VerifiedIffClean(check: Check, roots: seq<Root>, ks: seq<KeyAnswer>)
    requires AllDigestSafe(ks)
    ensures var r := Process(TrustRoots(check, roots), ks);
            && (Clean(r.items) && r.systemError == NoSystemError <==>
                forall j :: 0 <= j < |ks| ==> ImageVerified(check, roots, ks[j]))
            && (Clean(r.items) && r.systemError == NoSystemError ==>
                  && |r.items| == |ks|
                  && forall j :: 0 <= j < |ks| ==> Holds(check, roots, ks[j], (r.items[j].key, r.items[j].value)))
  {
    var v := TrustRoots(check, roots);
    ProcessMeaning(v, ks);
    NoVerificationError(v, ks, FirstAbort(v, ks));
    forall j | 0 <= j < |ks|
      ensures Judge(v, ks[j]).Answer? && Judge(v, ks[j]).item.error == NoError <==> ImageVerified(check, roots, ks[j])
      ensures ImageVerified(check, roots, ks[j]) ==>
                Judge(v, ks[j]).item.value == FilterMap(check, roots, ks[j].fetch.bundles, ks[j].fetch.digest.value)
    {
      CleanVerdictIff(check, roots, ks[j]);
    }
  }

  /** Admission, exactly: the template raises no violation if and only if the keychain was there, every requested image
      is verified, and some image carries an attestation with the provenance type, the issuer, an allowed owner and an
      allowed signer together. */
  lemma {:induction false} AdmittedIff(check: Check, roots: seq<Root>, keyChainOk: bool, ks: seq<KeyAnswer>,
                                       orgs: seq<string>, signerRepos: seq<string>)
    requires AllDigestSafe(ks)
    ensures !Violation(Gatekeeper(ValidateSpec(TrustRoots(check, roots), keyChainOk, ks)), orgs, signerRepos) <==>
            && keyChainOk
            && (forall j :: 0 <= j < |ks| ==> ImageVerified(check, roots, ks[j]))
            && (exists j :: 0 <= j < |ks| && ImageCarries(check, roots, ks[j], orgs, signerRepos))
  {
    var d := Gatekeeper(Process(TrustRoots(check, roots), ks));
    CleanResponse(check, roots, ks);
    if keyChainOk && d.errors == [] && d.systemError == NoSystemError {
      forall j | 0 <= j < |ks|
        ensures ImageCarries(check, roots, ks[j], orgs, signerRepos) <==>
                SomeCarries(d.responses[j].1, orgs, signerRepos)
      {
        assert Holds(check, roots, ks[j], d.responses[j]);
        ItemCarriesIff(check, roots, ks[j].fetch.bundles, ks[j].fetch.digest.value, orgs, signerRepos);
      }
    }
  }

  /** A request in which no accepted attestation has both the provenance type and the issuer is never admitted. */
  lemma {:induction false} NoProvenanceNoAdmission(check: Check, roots: seq<Root>, keyChainOk: bool, ks: seq<KeyAnswer>,
                                                   orgs: seq<string>, signerRepos: seq<string>)
    requires AllDigestSafe(ks)
    requires forall j, i, v | 0 <= j < |ks| && 0 <= i < |ks[j].fetch.bundles| && ks[j].fetch.digest.Some? ::
               FirstAccepting(check, roots, ks[j].fetch.bundles[i], ks[j].fetch.digest.value) == Some(v) ==>
                 || v.predicateType != "https://slsa.dev/provenance/v1"
                 || v.issuer != "https://token.actions.githubusercontent.com"
    ensures Violation(Gatekeeper(ValidateSpec(TrustRoots(check, roots), keyChainOk, ks)), orgs, signerRepos)
  {
    AdmittedIff(check, roots, keyChainOk, ks, orgs, signerRepos);
    forall j | 0 <= j < |ks| ensures !ImageCarries(check, roots, ks[j], orgs, signerRepos) {
    }
  }

  predicate Admitted(check: Check, roots: seq<Root>, ks: seq<KeyAnswer>, orgs: seq<string>, signerRepos: seq<string>)
    requires AllDigestSafe(ks)
  {
    !Violation(Gatekeeper(ValidateSpec(TrustRoots(check, roots), true, ks)), orgs, signerRepos)
  }

  predicate AllCarry(check: Check, roots: seq<Root>, ks: seq<KeyAnswer>, orgs: seq<string>, signerRepos: seq<string>) {
    forall j :: 0 <= j < |ks| ==> ImageCarries(check, roots, ks[j], orgs, signerRepos)
  }

  /** For requests of this length, an admitted request means that every one of its images proves its origin. */
  ghost predicate AdmittedMeansAllCarry(n: nat, check: Check, roots: seq<Root>, orgs: seq<string>,
                                        signerRepos: seq<string>) {
    forall ks | |ks| == n && AllDigestSafe(ks) && Admitted(check, roots, ks, orgs, signerRepos) ::
      AllCarry(check, roots, ks, orgs, signerRepos)
  }

  /** One image that proves its origin, in front of any verified images, is enough. */
  lemma OneCarrierIsEnough(check: Check, roots: seq<Root>, ours: KeyAnswer, others: seq<KeyAnswer>, orgs: seq<string>,
                           signerRepos: seq<string>)
    requires ours.DigestSafe() && ImageVerified(check, roots, ours)
    requires ImageCarries(check, roots, ours, orgs, signerRepos)
    requires AllDigestSafe(others) && forall j :: 0 <= j < |others| ==> ImageVerified(check, roots, others[j])
    ensures AllDigestSafe([ours] + others) && Admitted(check, roots, [ours] + others, orgs, signerRepos)
  {
    var ks := [ours] + others;
    assert ks[0] == ours;
    assert forall j :: 1 <= j < |ks| ==> ks[j] == others[j - 1];
    AdmittedIff(check, roots, true, ks, orgs, signerRepos);
    assert ImageCarries(check, roots, ks[0], orgs, signerRepos);
  }

  lemma OnlyImageCarries(check: Check, roots: seq<Root>, ks: seq<KeyAnswer>, orgs: seq<string>,
                         signerRepos: seq<string>)
    requires |ks| <= 1 && AllDigestSafe(ks) && Admitted(check, roots, ks, orgs, signerRepos)
    ensures AllCarry(check, roots, ks, orgs, signerRepos)
  {
    AdmittedIff(check, roots, true, ks, orgs, signerRepos);
  }

  /** The rule asks for the origin of some image, not of each. Given one image that proves its origin and one that is
      verified without proving it, admission speaks for every image exactly in requests of at most one key. */
  lemma {:induction false} OriginOfEveryImageIff(n: nat, check: Check, roots: seq<Root>, ours: KeyAnswer,
                                                 other: KeyAnswer, orgs: seq<string>, signerRepos: seq<string>)
    requires ours.DigestSafe() && ImageVerified(check, roots, ours)
    requires ImageCarries(check, roots, ours, orgs, signerRepos)
    requires other.DigestSafe() && ImageVerified(check, roots, other)
    requires !ImageCarries(check, roots, other, orgs, signerRepos)
    ensures AdmittedMeansAllCarry(n, check, roots, orgs, signerRepos) <==> n <= 1
  {
    if n <= 1 {
      forall ks | |ks| == n && AllDigestSafe(ks) && Admitted(check, roots, ks, orgs, signerRepos)
        ensures AllCarry(check, roots, ks, orgs, signerRepos)
      {
        OnlyImageCarries(check, roots, ks, orgs, signerRepos);
      }
    } else {
      var ks := MixedRequest(n, check, roots, ours, other, orgs, signerRepos);
    }
  }

  lemma {:induction false} MixedRequest(n: nat, check: Check, roots: seq<Root>, ours: KeyAnswer, other: KeyAnswer,
                                        orgs: seq<string>, signerRepos: seq<string>)
    returns (ks: seq<KeyAnswer>)
    requires n >= 2 && ours.DigestSafe() && ImageVerified(check, roots, ours) && other.DigestSafe()
    requires ImageVerified(check, roots, other)
    requires ImageCarries(check, roots, ours, orgs, signerRepos)
    requires !ImageCarries(check, roots, other, orgs, signerRepos)
    ensures |ks| == n && AllDigestSafe(ks) && Admitted(check, roots, ks, orgs, signerRepos)
    ensures !AllCarry(check, roots, ks, orgs, signerRepos)
  {
    var others := seq(n - 1, i requires 0 <= i < n - 1 => other);
    OneCarrierIsEnough(check, roots, ours, others, orgs, signerRepos);
    ks := [ours] + others;
    assert ks[1] == other;
  }

  /** An attestation built in `owner`'s repository with a reusable workflow of `org/repo`. */
  function Provenance(host: string, owner: string, org: string, repo: string, workflow: string): Verified {
    Verified(PROVENANCE, ISSUER, host + "/" + owner, host + "/" + owner + "/app", SignerURI(host, org, repo, workflow))
  }

  /** Such an attestation satisfies a rule for that organisation and workflow repository exactly when the owner is the
      organisation. */
  lemma ProvenanceCarriesIff(v: Verified, host: string, owner: string, org: string, repo: string, workflow: string)
    requires '/' !in owner && '/' !in org && '/' !in repo && repo != ".github"
    requires IndexOf(host + "/" + org + "/", MARKER) == -1
    requires v == Provenance(host, owner, org, repo, workflow)
    ensures Meets(v, [org], [org + "/" + repo]) <==> owner == org
  {
    CarriesIffMeets(v, [org], [org + "/" + repo]);
    CarriesOfSingles(v, org, org + "/" + repo);
    OwnSignerMatches(host, org, repo, workflow);
    OwnerMatchesIff(host, owner, org);
  }

  /** An image with one bundle, which a root accepts as `v`. */
  lemma SingleBundleImage(check: Check, root: Root, key: string, b: Bundle, d: Digest, v: Verified, orgs: seq<string>,
                          signerRepos: seq<string>)
    returns (k: KeyAnswer)
    requires check(root, b, d) == Some(v)
    ensures k == KeyAnswer(key, true, FetchResult([b], Some(d), 1, [], None))
    ensures k.DigestSafe() && ImageVerified(check, [root], k)
    ensures ImageCarries(check, [root], k, orgs, signerRepos) <==> Meets(v, orgs, signerRepos)
  {
    k := KeyAnswer(key, true, FetchResult([b], Some(d), 1, [], None));
    assert FirstAccepting(check, [root], k.fetch.bundles[0], d) == Some(v);
    assert check([root][0], b, d).Some?;
    assert Accepted(check, [root], k.fetch.bundles[0], d);
  }

  /** A request for an image of the allowed organisation and one of another, both built with the allowed workflow:
      admitted, though the second does not prove an allowed origin. */
  lemma ForeignImages(host: string, org: string, other: string, repo: string, workflow: string, root: Root, d: Digest)
    returns (check: Check, ours: KeyAnswer, theirs: KeyAnswer)
    requires '/' !in org && '/' !in other && '/' !in repo && repo != ".github" && org != other
    requires IndexOf(host + "/" + org + "/", MARKER) == -1
    ensures AllDigestSafe([ours] + [theirs])
    ensures Admitted(check, [root], [ours] + [theirs], [org], [org + "/" + repo])
    ensures !ImageCarries(check, [root], theirs, [org], [org + "/" + repo])
    ensures theirs.fetch.bundles == [Bundle(other)]
    ensures check(root, Bundle(other), d) == Some(Provenance(host, other, org, repo, workflow))
  {
    check := (r, b: Bundle, _) => Some(Provenance(host, b.content, org, repo, workflow));
    var v, w := Provenance(host, org, org, repo, workflow), Provenance(host, other, org, repo, workflow);
    ProvenanceCarriesIff(v, host, org, org, repo, workflow);
    ProvenanceCarriesIff(w, host, other, org, repo, workflow);
    ours, theirs := PairIsAdmitted(check, root, Bundle(org), Bundle(other), d, v, w, [org], [org + "/" + repo]);
  }

  /** Two images with one bundle each, of which only the first meets the rule, are admitted together. */
  lemma PairIsAdmitted(check: Check, root: Root, a: Bundle, b: Bundle, d: Digest, v: Verified, w: Verified,
                       orgs: seq<string>, signerRepos: seq<string>)
    returns (ours: KeyAnswer, theirs: KeyAnswer)
    requires check(root, a, d) == Some(v) && check(root, b, d) == Some(w)
    requires Meets(v, orgs, signerRepos) && !Meets(w, orgs, signerRepos)
    ensures AllDigestSafe([ours] + [theirs]) && Admitted(check, [root], [ours] + [theirs], orgs, signerRepos)
    ensures !ImageCarries(check, [root], theirs, orgs, signerRepos) && theirs.fetch.bundles == [b]
  {
    ours := SingleBundleImage(check, root, "ours", a, d, v, orgs, signerRepos);
    theirs := SingleBundleImage(check, root, "theirs", b, d, w, orgs, signerRepos);
    OneCarrierIsEnough(check, [root], ours, [theirs], orgs, signerRepos);
  }

  /** Such a request, written out: of https://github.com/o and https://github.com/z only the first is allowed. */
  lemma ForeignImageWitness() returns (check: Check, roots: seq<Root>, ours: KeyAnswer, theirs: KeyAnswer, d: Digest)
    ensures AllDigestSafe([ours] + [theirs])
    ensures Admitted(check, roots, [ours] + [theirs], ["o"], ["o" + "/" + "r"])
    ensures !ImageCarries(check, roots, theirs, ["o"], ["o" + "/" + "r"])
    ensures theirs.fetch.bundles == [Bundle("z")] && |roots| == 1
    ensures check(roots[0], Bundle("z"), d) ==
            Some(Provenance("https://github.com", "z", "o", "r", "workflows/w.yml@ref"))
  {
    var host, org := "https://github.com", "o";
    assert host + "/" + org + "/" == "https://github.com/o/";
    NoMarkerInHost(host + "/" + org + "/");
    roots, d := [Root("root")], Digest("sha256", "00");
    check, ours, theirs := ForeignImages(host, org, "z", "r", "workflows/w.yml@ref", roots[0], d);
    assert roots == [roots[0]];
  }

  /** End to end, over every run of fetch, retry, verification and policy: an admitted request had, for every image, a
      last attempt that read the image's referrers, with a sigstore bundle among them that some configured root accepts
      against that image's digest; and one accepted bundle carries everything the rule asks, its owner URI ending in
      an allowed organisation and its signer in an allowed repository, segment by segment. */
  lemma {:induction false} AdmittedImagesAreAttested(cfg: Config, check: Check, roots: seq<Root>, keyChainOk: bool,
                                                     req: seq<KeyRun>, orgs: seq<string>, signerRepos: seq<string>)
    requires Scripted(cfg, req)
    requires var answers := ValidateSpec(TrustRoots(check, roots), keyChainOk, Answers(cfg, req));
             !Violation(Gatekeeper(answers), orgs, signerRepos)
    ensures forall j :: 0 <= j < |req| ==> Attested(cfg, check, roots, req[j])
    ensures exists j, b, v :: 0 <= j < |req| && FetchedFor(cfg, req[j], b)
                              && ProvesOrigin(cfg, check, roots, req[j], b, v, orgs, signerRepos)
  {
    var ks := Answers(cfg, req);
    AdmittedIff(check, roots, keyChainOk, ks, orgs, signerRepos);
    forall j | 0 <= j < |req| ensures Attested(cfg, check, roots, req[j]) {
      VerifiedIsAttested(cfg, check, roots, req[j]);
    }
    var j :| 0 <= j < |ks| && ImageCarries(check, roots, ks[j], orgs, signerRepos);
    var b, v := OriginOfCarrier(cfg, check, roots, req[j], orgs, signerRepos);
  }

  lemma {:induction false} VerifiedIsAttested(cfg: Config, check: Check, roots: seq<Root>, kr: KeyRun)
    requires cfg.maxAttempts <= |kr.rounds|
    requires ImageVerified(check, roots, AnswerOf(cfg, kr))
    ensures Attested(cfg, check, roots, kr)
  {
    FetchSuccessMeaning(cfg, kr.rounds);
    var k := AnswerOf(cfg, kr);
    var i :| 0 <= i < |k.fetch.bundles| && Accepted(check, roots, k.fetch.bundles[i], k.fetch.digest.value);
    assert FetchedFor(cfg, kr, k.fetch.bundles[i]);
    assert ResolvedTo(cfg, kr, k.fetch.digest.value);
  }

  lemma {:induction false} OriginOfCarrier(cfg: Config, check: Check, roots: seq<Root>, kr: KeyRun, orgs: seq<string>,
                                           signerRepos: seq<string>)
    returns (b: Bundle, v: Verified)
    requires cfg.maxAttempts <= |kr.rounds|
    requires ImageVerified(check, roots, AnswerOf(cfg, kr))
    requires ImageCarries(check, roots, AnswerOf(cfg, kr), orgs, signerRepos)
    ensures FetchedFor(cfg, kr, b) && ProvesOrigin(cfg, check, roots, kr, b, v, orgs, signerRepos)
  {
    FetchSuccessMeaning(cfg, kr.rounds);
    var fetch := AnswerOf(cfg, kr).fetch;
    var d := fetch.digest.value;
    var i, r;
    i, r, v := CarryingBundle(check, roots, fetch.bundles, d, orgs, signerRepos);
    b := fetch.bundles[i];
    assert ResolvedTo(cfg, kr, d);
    OriginFrom(cfg, check, roots, kr, b, d, r, v, orgs, signerRepos);
  }

  lemma CarryingBundle(check: Check, roots: seq<Root>, bs: seq<Bundle>, d: Digest, orgs: seq<string>,
                       signerRepos: seq<string>)
    returns (i: nat, r: Root, v: Verified)
    requires exists i :: 0 <= i < |bs| && BundleCarries(check, roots, bs[i], d, orgs, signerRepos)
    ensures i < |bs| && r in roots && check(r, bs[i], d) == Some(v) && Meets(v, orgs, signerRepos)
  {
    i :| 0 <= i < |bs| && BundleCarries(check, roots, bs[i], d, orgs, signerRepos);
    FirstAcceptingMeaning(check, roots, bs[i], d);
    v := FirstAccepting(check, roots, bs[i], d).value;
    var k :| 0 <= k < |roots| && check(roots[k], bs[i], d) == Some(v);
    r := roots[k];
  }

  lemma OriginFrom(cfg: Config, check: Check, roots: seq<Root>, kr: KeyRun, b: Bundle, d: Digest, r: Root, v: Verified,
                   orgs: seq<string>, signerRepos: seq<string>)
    requires cfg.maxAttempts <= |kr.rounds| && ResolvedTo(cfg, kr, d)
    requires r in roots && check(r, b, d) == Some(v) && Meets(v, orgs, signerRepos)
    ensures ProvesOrigin(cfg, check, roots, kr, b, v, orgs, signerRepos)
  {
  }

  /** The bundle is among the sigstore referrers the last attempt read. */
  predicate FetchedFor(cfg: Config, kr: KeyRun, b: Bundle)
    requires cfg.maxAttempts <= |kr.rounds|
  {
    && Deciding(cfg, kr.rounds).Some? && Deciding(cfg, kr.rounds).value.IndexRead()
    && b in Attestations(Deciding(cfg, kr.rounds).value.manifest.value)
  }

  /** The digest the last attempt resolved the image to. */
  predicate ResolvedTo(cfg: Config, kr: KeyRun, d: Digest)
    requires cfg.maxAttempts <= |kr.rounds|
  {
    Deciding(cfg, kr.rounds).Some? && Deciding(cfg, kr.rounds).value.descriptor == Good(d)
  }

  ghost predicate Attested(cfg: Config, check: Check, roots: seq<Root>, kr: KeyRun)
    requires cfg.maxAttempts <= |kr.rounds|
  {
    exists b, d :: FetchedFor(cfg, kr, b) && ResolvedTo(cfg, kr, d) && Accepted(check, roots, b, d)
  }

  /** Some configured root turned the bundle into an attestation of provenance with an allowed owner and signer. */
  ghost predicate ProvesOrigin(cfg: Config, check: Check, roots: seq<Root>, kr: KeyRun, b: Bundle, v: Verified,
                               orgs: seq<string>, signerRepos: seq<string>)
    requires cfg.maxAttempts <= |kr.rounds|
  {
    && (exists d, r :: ResolvedTo(cfg, kr, d) && r in roots && check(r, b, d) == Some(v))
    && v.predicateType == "https://slsa.dev/provenance/v1"
    && v.issuer == "https://token.actions.githubusercontent.com"
    && (exists l :: 0 <= l < |orgs| && EndsWithSegments(v.sourceRepositoryOwnerURI, orgs[l]))
    && (exists m :: 0 <= m < |signerRepos| && SignerEndsWith(v.buildSignerURI, signerRepos[m]))
  }
}

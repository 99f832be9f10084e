# A verified model of the artifact-attestations OPA provider

The provider answers Gatekeeper's external-data requests: for every container image of an admission request it
fetches the Sigstore bundles attached to the image in its registry, verifies them against the configured trust roots and
returns one item per image, which a Rego constraint template then judges. Beside that it keeps the CA bundle of its own
Provider object up to date, caches a registry keychain and traces connections.

Between the I/O calls sit deterministic state machines and decision procedures. This project models those and proves
what they promise over all inputs, all runs and all interleavings. The outside is an oracle: the answers of the registry,
of Kubernetes, of clocks and of contexts are arguments (streams of arbitrary values), and `VerifyOne` is an arbitrary
function of root, bundle and digest.

| file | models |
|---|---|
| `Common.dfy`, `Text.dfy` | shared types; splitting, joining and suffixes of strings |
| `Base64.dfy`, `Pem.dfy` | section 4 of RFC 4648 and the certificate encoding of section 5 of RFC 7468, with their round trips |
| `Certificates.dfy`, `Merging.dfy` | `mergeAndEncode`, `parseCertificates` and the algebra of expiry and deduplication |
| `Injector.dfy` | `UpdateCABundle`, `refreshLoop`, `Start` of one replica; run collapse |
| `Replicas.dfy` | any number of replicas interleaving get, merge and compare-and-swap |
| `Failures.dfy`, `Naming.dfy` | the failure taxonomy; names and the rendered attempt trail |
| `Registry.dfy`, `Retry.dfy`, `Fetching.dfy` | one fetch attempt, the retry loop, and the laws of a whole fetch |
| `Verifying.dfy`, `Subjects.dfy` | `Multi.Verify` and `Verifier.Verify`; the subjects logged for a rejected bundle |
| `Provider.dfy`, `Requests.dfy` | `Validate` with its counters; laws of whole requests |
| `Policy.dfy`, `Admission.dfy` | the Rego rules; the template composed with everything above |
| `Trace.dfy`, `Keychain.dfy` | the connection trace; the keychain cache |

Methods follow the loops and in-place updates of the source and are proved equal to a specification function; the
lemmas then say what that function means without naming its body.

Where code and documentation differ, the code is followed:

- The comment on `lastIdle` (`pkg/fetcher/trace.go:40-42`) says that it is unset unless the last connection was reused.
  A fresh connection handed to the same request after a pooled one keeps the pooled one's idle time;
  `Trace.StaleIdleWitness` shows it and `Trace.IdleWithoutReuseIff` says exactly when it happens.
- The comment on the reset at `GetConn` (`pkg/fetcher/trace.go:78-83`) speaks of every per-request field. The start
  times of DNS, connect and TLS are not reset; `Trace.StalePhaseWitness` shows it and `Trace.PhaseForgetsHistoryIff`
  says exactly when it does.
- The comment on `newFetchError` (`pkg/fetcher/bundle.go:492-499`) does not list 404 among the non-recoverable kinds; the
  code does.
- A signer URI without `/.github/` makes `indexof` answer -1, and `substring` with a negative length keeps the whole URI
  (`rego/policies.rego:41-42`); `Policy.SignerMatchIsSegmentSuffix` covers both cases.
- The comments on the signer test (`rego/policies.rego:38-43`) say that the path behind the repository is removed. For a
  workflow in an organisation's own `.github` repository the first `/.github/` is one segment early, so the repository's
  name is removed too and the allowed repository is refused: `Policy.DotGithubRepoWitness`, and
  `Policy.SignerMatchIsSameRepoIff` for the exact condition.
- The repository's README (`README.md:229-232`) says that the image is verified to originate from the listed
  organisations. The template asks this of some image of the request: `Admission.ForeignImageWitness`, and
  `Admission.OriginOfEveryImageIff` for the exact condition.

Assumptions, each visible as a parameter or a precondition:

- `Library.Lawful`: a decoded PEM block consumes input, and an encoded block followed by anything is read back whole.
  `Pem.TextualEncodingIsLawful` exhibits a textual codec that satisfies it. NotAfter is a function of the DER bytes.
- The API server's update is a compare-and-swap on the fetched version.
- Only the replicas write the CA bundle; others may update the rest of the Provider object.
- An update request is applied, if at all, before its sender starts its next refresh. One that arrives later behaves
  like the request of one more replica, of which there may be any number.
- Replicas read their own clocks, with no relation between them; where a result needs one, it is a precondition, and
  `Replicas.DisagreeingReplicasFight` shows why the bound on writes does.
- Gatekeeper puts items with an error in `errors` and the others in `responses`.
- A referrer image has at least one layer (`pkg/fetcher/bundle.go:463`).
- A fetch is given at least `maxAttempts` rounds of answers, as many as its loop can consume.

## Model

| member | source | states |
|---|---|---|
| Base64.DecodeOfEncode | pkg/cainjector/injector.go:119-167 | every byte string survives encoding and decoding |
| Base64.AlphabetMeaning | pkg/cainjector/injector.go:167-167 | the alphabet and the padding character |
| Base64.QuantumBits | pkg/cainjector/injector.go:167-167 | four symbols are the 24 bits of three bytes, fewer bytes are filled with zero bits and padded |
| Base64.DecodesIff | pkg/cainjector/injector.go:119-122 | exactly whole quanta with padding in at most the last two places are decoded |
| Base64.ScansIff | pkg/cainjector/injector.go:119-122 | line breaks are skipped and any other foreign character is an error |
| Certificates.Library.ParseOfEncodeBlocks | pkg/cainjector/injector.go:153-189 | parsing the concatenated PEM blocks of a certificate list gives back exactly that list |
| Certificates.Library.ParseMeaning | pkg/cainjector/injector.go:170-189 | a bundle parses exactly when each of its blocks is a certificate, to these certificates in order |
| Certificates.Library.StoredOfRender | pkg/cainjector/injector.go:118-168 | a stored certificate list is read back exactly through base64 and PEM |
| Certificates.Library.RenderIsInjective | pkg/cainjector/injector.go:92-95 | equal stored texts mean equal certificate lists, so comparing texts compares lists |
| Pem.TextualEncodingIsLawful | pkg/cainjector/injector.go:153-156 | the textual PEM encoding meets the law the other results assume of the library |
| Certificates.LiveOfDistinct | pkg/cainjector/injector.go:139-161 | dropping expired certificates and keeping first occurrences commute |
| Certificates.SelectOfSelect | pkg/cainjector/injector.go:139-161 | selecting, appending and selecting again at a later clock is one selection at the later clock |
| Merging.ParseCertificates | pkg/cainjector/injector.go:170-189 | the loop computes the recursive parse, failing exactly where a block is no certificate and stopping quietly where no block is left |
| Merging.KeepCertificates | pkg/cainjector/injector.go:134-161 | the loop over the map and the buffer writes exactly the first unexpired occurrence of each certificate, in order |
| Merging.MergeAndEncode | pkg/cainjector/injector.go:118-168 | the method is the merge function, its four errors included |
| Merging.MergeMeaning | pkg/cainjector/injector.go:116-168 | a merge result reads back, holds exactly the certificates of both inputs whose NotAfter is not before the clock, each DER key once and in the order of first occurrence, beginning with the unexpired stored ones |
| Merging.MergeOutcomeIff | pkg/cainjector/injector.go:119-165 | which of the four errors a merge gives, or none |
| Merging.SelectInOrder | pkg/cainjector/injector.go:139-161 | the merged certificates are in the order of their first occurrence |
| Merging.NothingLeftIff | pkg/cainjector/injector.go:163-165 | the empty-result error occurs exactly when both inputs parse and every NotAfter is before the clock |
| Merging.UpToDateIff | pkg/cainjector/injector.go:87-95 | nothing is written exactly when the stored text is the rendering of a nonempty list without repeats or expired entries that already holds every unexpired mounted certificate |
| Merging.MergeFixedPoint | pkg/cainjector/injector.go:87-95 | merging the result with the same file at a clock where none of it has expired gives the identical text |
| Injector.ProviderObject.Update | pkg/cainjector/injector.go:191-209 | the object changes exactly when the carried version is current and the request arrives; success is reported only then |
| Injector.UpdateCABundle | pkg/cainjector/injector.go:76-114 | stored bundle and outcome after one refresh, including an error returned after the write took effect |
| Injector.RefreshOutcomeIff | pkg/cainjector/injector.go:76-114 | the exact condition of each of the seven outcomes of a refresh |
| Injector.RefreshSucceedsIff | pkg/cainjector/injector.go:76-114 | no error exactly when object, file and merge are fine and the merge is already stored, or written, acknowledged and waited for; the stored text changes exactly with an applied write |
| Injector.RefreshLoop | pkg/cainjector/injector.go:55-70 | the loop ends at the first refresh that fails during shutdown, which is not counted, or after the last tick; bundle and failure counter are those of the handled ticks |
| Injector.Start | pkg/cainjector/injector.go:31-53 | it starts exactly with a positive interval and a successful first refresh; then the loop's end, bundle and failure counter |
| Injector.RunIsOneSelection | pkg/cainjector/injector.go:76-168 | after any run the stored bundle is the initial one or one selection at the last effective clock over everything collected |
| Injector.RunCollapse | pkg/cainjector/injector.go:76-168 | for one writer and a clock that never goes back, the stored bundle equals one merge, at the last effective clock, of the initial bundle with the certificates of all effective files in order |
| Injector.RefusedFilesWeighNothing | pkg/cainjector/injector.go:163-165 | the files of refreshes refused as empty do not change any later selection |
| Injector.RunCollapseWithRefused | pkg/cainjector/injector.go:76-168 | the collapse also holds with the refused files counted in |
| Replicas.UninterruptedRefresh | pkg/cainjector/injector.go:76-114 | the steps of one replica taken in a row are the refresh of a single writer, recorded exactly when it took effect |
| Replicas.AfterSending | pkg/cainjector/injector.go:97-110 | a replica waits exactly after an acknowledged write, and no step moves another replica |
| Replicas.ExecKeepsInv | pkg/cainjector/injector.go:76-114 | the invariant of replicas, history and stored bundle holds after every interleaving |
| Replicas.LeavesOnlyWhenExpired | pkg/cainjector/injector.go:76-227 | in every reachable state a stored certificate leaves only in an applied write at a clock after its NotAfter |
| Replicas.MountedCertificatesArrive | pkg/cainjector/injector.go:76-114 | once each replica has had an effective refresh, even one that returned an error after its write, the bundle holds every mounted certificate valid at the clocks of the refresh and of the writers |
| Replicas.StoredContents | pkg/cainjector/injector.go:76-227 | initial certificates that outlive the writers stay, and nothing is stored that was neither initial nor mounted by a writer |
| Replicas.InterleavingIsSerial | pkg/cainjector/injector.go:76-227 | after every interleaving the stored text is what one writer leaves that makes the writing refreshes in the order of the history |
| Replicas.InterleavingCollapses | pkg/cainjector/injector.go:76-227 | with the writers' clocks in order, the stored bundle of any interleaving is one merge of the initial bundle with everything the writers mounted |
| Replicas.WriteAddsCertificate | pkg/cainjector/injector.go:92-97 | onto a canonical bundle without expired entries a replica writes only to add a certificate |
| Replicas.WritesAreBounded | pkg/cainjector/injector.go:76-114 | as long as what has expired for one writer has expired for the later ones, any interleaving makes at most one write for each certificate and one more for each expired one |
| Replicas.OrderedWritesAreBounded | pkg/cainjector/injector.go:76-168 | with writers' clocks in the order of the writes, at most two writes for each certificate |
| Replicas.DisagreeingReplicasFight | pkg/cainjector/injector.go:136-146 | otherwise not: two replicas whose clocks disagree on one of two certificates make any number of writes |
| Failures.FirstDiagnosticRange | pkg/fetcher/bundle.go:556-567 | the diagnostics name unauthorized, forbidden or throttled, and stay unknown exactly when none of them is one of the three codes |
| Failures.ClassificationTable | pkg/fetcher/bundle.go:536-571 | the kind and status code for a deadline, a cancellation, the four statuses, the diagnostics and anything else, in that order |
| Failures.FirstDiagnosticDecides | pkg/fetcher/bundle.go:556-566 | the first diagnostic with one of the three codes gives the kind |
| Failures.NewFetchErrorMeaning | pkg/fetcher/bundle.go:500-571 | a transport error is never unnamed or an invalid bundle, takes the fallback exactly when unclassified, and is recoverable exactly when its kind is not terminal |
| Naming.FormatAttemptTrail | pkg/fetcher/bundle.go:685-702 | the loop writes the tokens joined by commas |
| Naming.DeclaredNames | pkg/fetcher/bundle.go:199-239 | the names of kinds and steps |
| Naming.RenderedMeaning | pkg/fetcher/bundle.go:685-702 | tokens joined by commas; a reason, with a colon and the step if there is one; an empty reason written as unknown |
| Naming.TrailRoundTrip | pkg/fetcher/bundle.go:199-239 | splitting at commas and colons recovers the exact trail, an empty reason read as unknown |
| Naming.RenderingIsInjective | pkg/fetcher/bundle.go:665-702 | trails that render alike have the same length and read the same entry by entry, and are equal when no reason is empty |
| Registry.DoBundleFromName | pkg/fetcher/bundle.go:414-490 | the attempt's loop refines the recursive collection, and its error is a new object |
| Registry.IsBundleIff | pkg/fetcher/bundle.go:451-453 | a referrer is taken exactly when its artifact type starts with the sigstore bundle media type |
| Registry.ReadMeaning | pkg/fetcher/bundle.go:455-471 | the first failing one of image, layer list, layer and content decides |
| Registry.CollectMeaning | pkg/fetcher/bundle.go:448-483 | the bundles are collected exactly when every sigstore referrer can be read and decoded; the failure is an invalid bundle exactly when the first obstacle was read and not decoded |
| Registry.AttemptIsAllOrNothing | pkg/fetcher/bundle.go:427-489 | success exactly when index and all sigstore referrers are readable; then exactly their bundles in manifest order, a digest present exactly when there are any |
| Registry.AttemptFailureMeaning | pkg/fetcher/bundle.go:414-517 | every failed attempt has a kind and a step, is recoverable exactly when the kind is not terminal, and is an invalid bundle exactly when a layer was read and not decoded |
| Registry.AttemptFailurePlaces | pkg/fetcher/bundle.go:427-481 | which failing call gives which step, fallback kind and status; a layer read and not decoded gives the invalid bundle |
| Retry.FinalizeFetchError | pkg/fetcher/bundle.go:607-632 | a fetch error is completed in place, another error is wrapped, no error at all gives the zero-attempt error |
| Retry.TakeTurn | pkg/fetcher/bundle.go:331-397 | one turn of the loop: cut pause, success, fatal error, done parent or another turn, with what happens to the error objects |
| Retry.RetryBundle | pkg/fetcher/bundle.go:322-410 | the loop equals the recursive specification for any attempt function; only the returned error object is changed |
| Retry.ClassifyReturn | pkg/fetcher/bundle.go:579-590 | the classification of an attempt's error, from the object or from the transport |
| Fetching.RetryMeaning | pkg/fetcher/bundle.go:322-410 | over the first maxAttempts turns, for every stream: trail of every failed attempt in order, as long as the attempts on failure and one shorter on success; result and error agree; why the fetch ended, with the error's kind, step and status; no attempt after a cut pause; recoverable exactly when at least one turn was allowed and all ran without being cut short |
| Fetching.AllAttemptsAreMade | pkg/fetcher/bundle.go:330-410 | exactly maxAttempts attempts when nothing stops the fetch; a failed fetch with fewer was cut, fatal or found the parent done |
| Fetching.OneReason | pkg/fetcher/bundle.go:322-410 | a failed fetch ends for exactly one reason: turns used up, pause cut, fatal attempt, or parent done after an attempt |
| Fetching.BundleFromName | pkg/fetcher/bundle.go:314-318 | the retry loop over registry attempts, with a new error object |
| Fetching.FetchObeysRetryLaw | pkg/fetcher/bundle.go:314-318 | the fetch obeys that law with the configured delay over registry attempts |
| Fetching.TrailShape | pkg/fetcher/bundle.go:376-409 | terminal kinds occur only as the last entry of a failed fetch's trail and never in a successful one's |
| Fetching.ReportedTrailIsNamed | pkg/fetcher/bundle.go:371-372 | no entry of a reported trail has the empty reason |
| Fetching.TerminalErrorMatchesTrail | pkg/fetcher/bundle.go:573-632 | the last entry of a failed fetch's trail is the error's own kind and step where the fetch was exhausted or ended on a fatal attempt, and has its step where the parent was done |
| Fetching.WrittenAlikeIsEqual | pkg/fetcher/bundle.go:665-702 | two fetches whose trails are written alike have the same trail |
| Fetching.InvalidBundleIff | pkg/fetcher/bundle.go:376-381 | a fetch reports an invalid bundle exactly when its last attempt read a layer and could not decode it, whatever the parent context did |
| Fetching.FetchSuccessMeaning | pkg/fetcher/bundle.go:353-363 | a successful fetch returns exactly the last attempt's sigstore bundles, with a digest exactly when there are any |
| Fetching.FetchSuccessIff | pkg/fetcher/bundle.go:353-363 | a fetch succeeds exactly when its last attempt read the index and every sigstore referrer |
| Fetching.FetchTimeBound | pkg/fetcher/bundle.go:330-352 | for accepted settings the last attempt, and a pause after it, end within maxAttempts timeouts and one delay fewer, and not after a parent deadline that lies ahead at the start |
| Verifying.Multi.constructor | pkg/verifier/multi.go:28-35 | the verifier holds the caller's roots in order |
| Verifying.Multi.Verify | pkg/verifier/multi.go:40-72 | the nested loops with early break are a filter-map by the first accepting root, in bundle order |
| Verifying.VerifyWithOneRoot | pkg/verifier/verifier.go:104-129 | the single verifier is the same filter-map with one root |
| Verifying.FirstAcceptingMeaning | pkg/verifier/multi.go:47-53 | the verdict is that of a root that accepts, with no accepting root before it |
| Verifying.ResultCount | pkg/verifier/multi.go:44-71 | as many results as accepted bundles, at most as many as bundles, and some exactly when one is accepted |
| Verifying.ResultMembers | pkg/verifier/multi.go:44-71 | the results are exactly the first accepting roots' verdicts |
| Verifying.ResultsInOrder | pkg/verifier/multi.go:44-50 | the results of two lists of bundles follow each other |
| Verifying.ResultOfOne | pkg/verifier/multi.go:44-53 | a single bundle gives the first accepting root's verdict or nothing |
| Verifying.RootOrderIrrelevantForCount | pkg/verifier/multi.go:47-53 | the number of results depends on the set of roots only |
| Verifying.AppendingRootsKeepsResults | pkg/verifier/multi.go:47-53 | roots appended at the end change no result of a bundle accepted before |
| Subjects.SortedIsUnique | pkg/verifier/verifier.go:205-209 | a collection has one sorted order |
| Subjects.SortIsCanonical | pkg/verifier/verifier.go:205-209 | the sorted algorithms do not depend on the order in which the map was visited |
| Subjects.LineMeaning | pkg/verifier/verifier.go:200-216 | a line is the name with the digests sorted by algorithm, or a note that there is none |
| Subjects.PairsMeaning | pkg/verifier/verifier.go:211-214 | each digest is written as algorithm, equals sign and value |
| Subjects.JoinedMeaning | pkg/verifier/verifier.go:216-216 | digests are separated by a comma and a space |
| Subjects.LinesMeaning | pkg/verifier/verifier.go:195-217 | one line for each subject that is not nil, in order |
| Subjects.OverflowMeaning | pkg/verifier/verifier.go:219-222 | the overflow line states the number of subjects left out |
| Subjects.BundleSubjects | pkg/verifier/verifier.go:194-226 | the logged lines are a function of the statement alone, nil subjects skipped and at most five lines followed by the number left |
| Provider.ValidateKey | pkg/provider/provider.go:122-291 | one image: its verdict and the growth of every counter |
| Provider.Validate | pkg/provider/provider.go:71-295 | the multi-exit loop equals the recursive specification, and the counters grow by the tally of the keys handled |
| Provider.ErrorTexts | pkg/provider/provider.go:134-137 | the texts of item errors |
| Requests.ProcessMeaning | pkg/provider/provider.go:122-294 | items are exactly the verdicts of the keys before the first abort, in order and under their keys; the system error is that abort's |
| Requests.VerdictTable | pkg/provider/provider.go:131-290 | the verdict on one image, case by case |
| Requests.AnyVerifierTable | pkg/provider/provider.go:253-290 | with any verifier: its error aborts and counts nothing; otherwise its results are the item and the counts |
| Requests.ItemErrorIff | pkg/provider/provider.go:131-290 | over every run of fetch and retry: invalid reference, unsigned, invalid signature and no error each exactly in its case, said of the last attempt's answers and the roots |
| Requests.ProcessOfConcat | pkg/provider/provider.go:122-294 | a request for two lists answers the first and then, if it completed, the second |
| Requests.ResumeAfterAbort | pkg/provider/provider.go:201-225 | an aborted request keeps exactly the earlier verdicts, and a later request for the rest completes them to the uninterrupted answer |
| Requests.RequestConservation | pkg/provider/provider.go:94-102 | retrieved equals verified plus failed; one fetch per parseable key up to the aborting one; the request is observed once, as a failure exactly with a system error |
| Requests.HandledMeaning | pkg/provider/provider.go:122-226 | the keys handled are those up to and including the first that aborts |
| Requests.RequestCountsRight | pkg/provider/provider.go:172-274 | over the keys handled: failed fetches, images without bundles, bundles retrieved, and of these the accepted and the rejected ones |
| Requests.FetchErrorItemIff | pkg/provider/provider.go:170-199 | an item is a fetch error exactly when the image's last attempt read a layer and could not decode it |
| Requests.OtherFetchFailuresAbort | pkg/provider/provider.go:201-225 | any other fetch failure gives a system error and no item for that key or a later one |
| Requests.AbortMeaning | pkg/provider/provider.go:201-225 | an abort names the first image whose fetch failed otherwise, with that error's own kind and step |
| Policy.MatchIsSegmentSuffix | rego/policies.rego:10-12 | the suffix test asks for the name's path segments at the end, with one more in front |
| Policy.OrgMatchIsLastSegment | rego/policies.rego:10-12 | for a name without a slash: the URI has a slash and its last segment is the name |
| Policy.FromOrgMeaning | rego/policies.rego:3-13 | for names without a slash: some attestation has the provenance type, the issuer and an owner URI whose last segment is one of the organisations |
| Policy.RepoMatchIsLastTwoSegments | rego/policies.rego:22-24 | for owner/repo: the last two segments, with something in front |
| Policy.FromRepoMeaning | rego/policies.rego:15-25 | some attestation has the provenance type, the issuer and a source URI ending with the segments of one of the repositories |
| Policy.FromOrgWithSignerRepoMeaning | rego/policies.rego:27-46 | some one attestation has the provenance type, the issuer, an owner URI ending with an allowed organisation and a signer ending with an allowed repository |
| Policy.SignerMatchIsSegmentSuffix | rego/policies.rego:35-45 | for every signer URI: the part before the first marker, or all of it, ends with the allowed segments |
| Policy.SignerTrimMeaning | rego/policies.rego:39-42 | what is kept of a signer URI is everything before the first marker, or all of it when there is none |
| Policy.SignerMatchIsSameRepoIff | rego/policies.rego:35-45 | for prefix/owner/repo/.github/rest with no marker before the repository, the match holds exactly for the same owner and repository, if and only if the repository is not called `.github` |
| Policy.DotGithubRepoIsRefused | rego/policies.rego:38-45 | a signer in any organisation's `.github` repository is refused even where that repository is allowed |
| Policy.DotGithubRepoWitness | rego/policies.rego:38-45 | such a signer, written out |
| Admission.CleanVerdictIff | pkg/provider/provider.go:243-290 | an image gets an item without an error exactly when it was fetched and a root accepts one of its bundles against its digest |
| Admission.CleanResponse | validation/from-org-with-signer-constraint-template.yaml:22-28 | no errors and no system error exactly when every image is verified, and then every response holds that image's results |
| Admission.AdmittedIff | validation/from-org-with-signer-constraint-template.yaml:15-53 | no violation if and only if every requested image is verified and some image carries an attestation with provenance type, issuer, allowed owner and allowed signer together |
| Admission.NoProvenanceNoAdmission | validation/from-org-with-signer-constraint-template.yaml:34-41 | a request in which no accepted attestation has both the provenance type and the issuer is never admitted |
| Admission.OneCarrierIsEnough | validation/from-org-with-signer-constraint-template.yaml:30-53 | an image that proves its origin followed by any verified images is admitted |
| Admission.OriginOfEveryImageIff | validation/from-org-with-signer-constraint-template.yaml:30-53 | where some image proves its origin and some verified image does not, admission speaks for every image exactly in requests of at most one key |
| Admission.ForeignImages | validation/from-org-with-signer-constraint-template.yaml:30-53 | for any allowed organisation and workflow repository: an admitted request for two images of which the second has another owner |
| Admission.ForeignImageWitness | validation/from-org-with-signer-constraint-template.yaml:30-53 | such a request, written out |
| Admission.AdmittedImagesAreAttested | validation/from-org-with-signer-constraint-template.yaml:15-53 | end to end over fetch, retry, verification and policy: each admitted image's last attempt read a sigstore bundle that a configured root accepts against the resolved digest, and one accepted bundle proves the origin segment by segment |
| Trace.TraceCollector.constructor | pkg/fetcher/trace.go:62-70 | a new collector describes the empty history: every timing unset |
| Trace.TraceCollector.OnGetConn | pkg/fetcher/trace.go:76-93 | a GetConn joins the history, which resets the request's fields and every duration but no start time |
| Trace.TraceCollector.OnGotConn | pkg/fetcher/trace.go:94-105 | a GotConn joins the history: connection time, reuse, and either counter; idle time only for a pooled connection |
| Trace.TraceCollector.OnDNSStart | pkg/fetcher/trace.go:106-110 | a DNS start joins the history |
| Trace.TraceCollector.OnDNSDone | pkg/fetcher/trace.go:111-115 | a DNS completion joins the history, timed from the start on record |
| Trace.TraceCollector.OnConnectStart | pkg/fetcher/trace.go:122-126 | a connect start joins the history |
| Trace.TraceCollector.OnConnectDone | pkg/fetcher/trace.go:127-131 | a connect completion joins the history, timed from the start on record |
| Trace.TraceCollector.OnTLSHandshakeStart | pkg/fetcher/trace.go:132-136 | a TLS start joins the history |
| Trace.TraceCollector.OnTLSHandshakeDone | pkg/fetcher/trace.go:137-141 | a TLS completion joins the history, timed from the start on record |
| Trace.TraceCollector.OnWroteRequest | pkg/fetcher/trace.go:142-154 | a write joins the history; a failed one records nothing |
| Trace.TraceCollector.OnGotFirstResponseByte | pkg/fetcher/trace.go:155-161 | a first byte joins the history, timed only when a connection was handed out |
| Trace.TraceCollector.Fields | pkg/fetcher/trace.go:172-194 | what the logged counts, reuse, write, black-hole signature, idle time, first-byte time and phase times say, in terms of the hook calls alone |
| Trace.RequestForgetsHistory | pkg/fetcher/trace.go:76-93 | reuse, idle, write and first-byte fields are the same after every history before a GetConn |
| Trace.RequestMeaning | pkg/fetcher/trace.go:94-154 | written and reused mean exactly that it happened since the last GetConn |
| Trace.BlackHoleIff | pkg/fetcher/trace.go:165-171 | write logged with a first byte of -1 means exactly that the request was written and no byte came back on its connection |
| Trace.TtfbValue | pkg/fetcher/trace.go:155-161 | the first-byte time runs from the connection handed out before it |
| Trace.CountersMeaning | pkg/fetcher/trace.go:94-105 | reused and new connections are counted exactly and together number the GotConn events |
| Trace.IdleWithoutReuseIff | pkg/fetcher/trace.go:94-105 | a recorded idle time without reuse occurs exactly when a pooled connection was followed by a fresh one in the request |
| Trace.IdleMeansReused | pkg/fetcher/trace.go:39-43 | with at most one connection for each GetConn a recorded idle time means a reused connection |
| Trace.StaleIdleWitness | pkg/fetcher/trace.go:94-105 | a history in which the comment's claim fails |
| Trace.PhaseValue | pkg/fetcher/trace.go:106-141 | after any history, a logged phase is the time from the last start before its last completion to that completion |
| Trace.PhaseForgetsHistoryIff | pkg/fetcher/trace.go:106-141 | for clocks that never go back: a logged phase is the same after every history exactly when the request, if it completed the phase, had started it, or lasted longer than a duration can say |
| Trace.StalePhaseWitness | pkg/fetcher/trace.go:76-115 | a lookup started in one request and logged for the next |
| Keychain.BuildKeychain | pkg/authn/provider.go:88-125 | never nil, the default first, complete exactly when both authenticators were built |
| Keychain.KeyChainProvider.Start | pkg/authn/provider.go:133-144 | the initial build is cached even if degraded |
| Keychain.KeyChainProvider.RefreshLoop | pkg/authn/provider.go:151-169 | every tick before cancellation is handled, and the failure counter grows by the ticks handled less the builds adopted |
| Keychain.HandledMeaning | pkg/authn/provider.go:151-169 | the builds handled are those of the ticks before the first cancellation, in order |
| Keychain.KeyChainProvider.KeyChain | pkg/authn/provider.go:180-187 | it serves the one keychain the last-good rule allows (the latest adopted rebuild, else the initial build, else the default) and never fails |
| Keychain.ServedIsLastGood | pkg/authn/provider.go:151-187 | the cache serves the last good keychain in every run |
| Keychain.DegradedBuildsChangeNothing | pkg/authn/provider.go:146-168 | any number of degraded rebuilds leaves what is served and the adopted count alone |
| Keychain.NeverFallsBack | pkg/authn/provider.go:146-168 | after one adopted rebuild only adopted rebuilds are ever served |

## Left out

- Process start, flags, HTTP serving, JSON, signals and shutdown: plumbing without a loop-level property.
- Sigstore, TUF and X.509 internals, image-reference parsing, the registry and Kubernetes clients: oracles only. `VerifyOne` is a function of root, bundle and digest, and a PEM block's type and headers, which the injector does not look at, are not modelled.
- The error path of `pem.Encode` (`pkg/cainjector/injector.go:157-159`), which writing to a memory buffer cannot take.
- Failing conversions of the Provider object (`pkg/cainjector/injector.go:194-197`, `222-224`) count as a failed get or update.
- Pem.TextualEncodingIsLawful: speaks of a plain decoder for the encoder's own output; the library decoder's tolerance of other texts is covered by the arbitrary lawful library.
- `pickPhaseTimeout`, the registry transport and pool settings: field copying and scaling with easy bounds.
- Metric labels, buckets and latencies; log text. Only counts and the outcome of the request timer are modelled.
- The text of system errors and request identifiers: a system error is its kind, key, reason and step.
- Provider.Validate: does not model a bundle fetcher other than the default one, whose errors are always `FetchError` objects; the verifier may be any implementation.
- Gatekeeper's own cache and its mapping of items, which is assumed.
- The example rule `customAttestation`, and the other templates, whose rules are those of `rego/policies.rego`.
- The errors `bundleSubjects` returns before it reaches a statement (`pkg/verifier/verifier.go:157-192`).
- Verifying.Multi.constructor: the copied slice is an immutable sequence, since nothing changes it after construction.
- Trace.TraceCollector.Fields: hooks are atomic steps; the mutex and the goroutine that calls a hook are not modelled, nor is the atomic pointer of the keychain cache.
- Keychain.KeyChainProvider.Start: only the synchronous part; the loop it launches is `RefreshLoop`, and the default refresh interval for a non-positive setting is not modelled.

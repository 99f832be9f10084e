/** One attempt to fetch the bundles of an image: `DoBundleFromName` against a scripted registry. */
module Registry {
  import opened Common
  import opened Failures

  datatype Digest = Digest(algorithm: string, hex: string)

  datatype Bundle = Bundle(content: string)

  datatype Reply<T> = Good(value: T) | Bad(err: RawError)

  /** What the bytes of a layer decode to. */
  datatype Document = Attestation(bundle: Bundle) | Garbage

  /** An entry of the referrers index, and what reading its image brings: the image, its layer list, its first
      layer and that layer's bytes. A referrer image has at least one layer. */
  datatype Referrer = Referrer(
    artifactType: string, image: Option<RawError>, layers: Option<RawError>, open: Option<RawError>,
    content: Reply<Document>)
  {
    predicate IsBundle() {
      "application/vnd.dev.sigstore.bundle" <= artifactType
    }

    function Read(): Reply<Document> {
      if image.Some? then Bad(image.value)
      else if layers.Some? then Bad(layers.value)
      else if open.Some? then Bad(open.value)
      else content
    }
  }

  /** Everything the registry answers during one attempt. */
  datatype Script = Script(
    puller: Option<RawError>, descriptor: Reply<Digest>, referrers: Option<RawError>, manifest: Reply<seq<Referrer>>)
  {
    predicate IndexRead() {
      puller.None? && descriptor.Good? && referrers.None? && manifest.Good?
    }
  }

  /** An attempt's return value. */
  datatype AttemptValue =
    | Fetched(bundles: seq<Bundle>, digest: Option<Digest>)
    | Structured(failure: FetchFailure)
    | Unstructured(raw: RawError)

  datatype Collected = Bundles(bundles: seq<Bundle>) | Failed(failure: FetchFailure)

  function CollectBundles(retryThrottled: bool, refs: seq<Referrer>): Collected {
    if refs == [] then Bundles([])
    else if !refs[0].IsBundle() then CollectBundles(retryThrottled, refs[1..])
    else match refs[0].Read()
      case Bad(e) => Failed(NewFetchError(retryThrottled, AtBlob, BlobError, e))
      case Good(Garbage) => Failed(UndecodableError())
      case Good(Attestation(b)) => After([b], CollectBundles(retryThrottled, refs[1..]))
  }

  function After(first: seq<Bundle>, rest: Collected): Collected {
    match rest
    case Failed(_) => rest
    case Bundles(bs) => Bundles(first + bs)
  }

  function DoBundle(retryThrottled: bool, s: Script): AttemptValue {
    if s.puller.Some? then Structured(NewFetchError(retryThrottled, AtDescriptor, DescriptorError, s.puller.value))
    else if s.descriptor.Bad? then
      Structured(NewFetchError(retryThrottled, AtDescriptor, DescriptorError, s.descriptor.err))
    else if s.referrers.Some? then
      Structured(NewFetchError(retryThrottled, AtReferrers, ReferrersUnavailable, s.referrers.value))
    else if s.manifest.Bad? then
      Structured(NewFetchError(retryThrottled, AtReferrers, ReferrersUnavailable, s.manifest.err))
    else match CollectBundles(retryThrottled, s.manifest.value)
      case Failed(f) => Structured(f)
      case Bundles(bs) => if bs == [] then Fetched([], None) else Fetched(bs, Some(s.descriptor.value))
  }

  /** A `FetchError` object: the retry engine fills in its attempts and trail in place. */
  class FetchError {
    var step: Step
    var kind: Kind
    var attempts: nat
    var trail: seq<AttemptOutcome>
    var status: int
    var recoverable: bool
    var cause: Cause

    constructor (f: FetchFailure)
      ensures Value() == f
    {
      step, kind, attempts, trail, status, recoverable, cause :=
        f.step, f.kind, f.attempts, f.trail, f.status, f.recoverable, f.cause;
    }

    function Value(): FetchFailure
      reads this
    {
      FetchFailure(step, kind, attempts, trail, status, recoverable, cause)
    }
  }

  /** What an attempt hands back: a `FetchError` travels as an object. */
  datatype AttemptReturn =
    | GotBundles(bundles: seq<Bundle>, digest: Option<Digest>)
    | GotFetchError(fe: FetchError)
    | GotRawError(raw: RawError)

  ghost function ValueOf(r: AttemptReturn): AttemptValue
    reads if r.GotFetchError? then {r.fe} else {}
  {
    match r
    case GotBundles(bs, d) => Fetched(bs, d)
    case GotFetchError(fe) => Structured(fe.Value())
    case GotRawError(raw) => Unstructured(raw)
  }

  method Fail(f: FetchFailure) returns (r: AttemptReturn)
    ensures r.GotFetchError? && fresh(r.fe) && ValueOf(r) == Structured(f)
  {
    var fe := new FetchError(f);
    r := GotFetchError(fe);
  }

  method DoBundleFromName(retryThrottled: bool, s: Script) returns (r: AttemptReturn)
    ensures ValueOf(r) == DoBundle(retryThrottled, s)
    ensures r.GotFetchError? ==> fresh(r.fe)
  {
    if s.puller.Some? {
      r := Fail(NewFetchError(retryThrottled, AtDescriptor, DescriptorError, s.puller.value));
      return;
    }
    if s.descriptor.Bad? {
      r := Fail(NewFetchError(retryThrottled, AtDescriptor, DescriptorError, s.descriptor.err));
      return;
    }
    if s.referrers.Some? {
      r := Fail(NewFetchError(retryThrottled, AtReferrers, ReferrersUnavailable, s.referrers.value));
      return;
    }
    if s.manifest.Bad? {
      r := Fail(NewFetchError(retryThrottled, AtReferrers, ReferrersUnavailable, s.manifest.err));
      return;
    }
    var refs := s.manifest.value;
    var bundles: seq<Bundle> := [];
    var i := 0;
    AfterNothing(CollectBundles(retryThrottled, refs));
    while i < |refs|
      invariant i <= |refs|
      invariant CollectBundles(retryThrottled, refs) == After(bundles, CollectBundles(retryThrottled, refs[i..]))
    {
      var ref := refs[i];
      assert refs[i..][1..] == refs[i + 1..];
      i := i + 1;
      if !ref.IsBundle() {
        continue;
      }
      var layer := ref.Read();
      if layer.Bad? {
        r := Fail(NewFetchError(retryThrottled, AtBlob, BlobError, layer.err));
        return;
      }
      if layer.value.Garbage? {
        r := Fail(UndecodableError());
        return;
      }
      AfterTwice(bundles, [layer.value.bundle], CollectBundles(retryThrottled, refs[i..]));
      bundles := bundles + [layer.value.bundle];
    }
    assert bundles + [] == bundles;
    if |bundles| == 0 {
      return GotBundles([], None);
    }
    return GotBundles(bundles, Some(s.descriptor.value));
  }

  lemma AfterNothing(c: Collected)
    ensures After([], c) == c
  {
    if c.Bundles? {
      assert [] + c.bundles == c.bundles;
    }
  }

  lemma AfterTwice(a: seq<Bundle>, b: seq<Bundle>, c: Collected)
    ensures After(a, After(b, c)) == After(a + b, c)
  {
    if c.Bundles? {
      assert a + (b + c.bundles) == a + b + c.bundles;
    }
  }

  // ---- What an attempt means ----

  /** The artifact type starts with the sigstore bundle's media type, whatever version follows. */
  predicate IsSigstore(artifactType: string) {
    var media := "application/vnd.dev.sigstore.bundle";
    |artifactType| >= |media| && artifactType[..|media|] == media
  }

  lemma IsBundleIff(r: Referrer)
    ensures r.IsBundle() <==> IsSigstore(r.artifactType)
  {
  }

  /** A layer's content is what reading gives when image, layer list and layer could be had; else the first error. */
  lemma ReadMeaning(r: Referrer)
    ensures r.image.None? && r.layers.None? && r.open.None? ==> r.Read() == r.content
    ensures r.image.Some? ==> r.Read() == Bad(r.image.value)
    ensures r.image.None? && r.layers.Some? ==> r.Read() == Bad(r.layers.value)
    ensures r.image.None? && r.layers.None? && r.open.Some? ==> r.Read() == Bad(r.open.value)
  {
  }

  /** The bundles of the referrers of the sigstore artifact type, in manifest order. */
  function Attestations(refs: seq<Referrer>): seq<Bundle> {
    if refs == [] then []
    else
      (if IsSigstore(refs[0].artifactType) && refs[0].Read().Good? && refs[0].Read().value.Attestation?
       then [refs[0].Read().value.bundle] else [])
      + Attestations(refs[1..])
  }

  /** Where every sigstore referrer yields its bundle, there are none exactly when there is no sigstore referrer. */
  lemma {:induction false} NoAttestationsIff(refs: seq<Referrer>)
    requires forall i :: 0 <= i < |refs| ==> Readable(refs[i])
    ensures Attestations(refs) == [] <==> forall i :: 0 <= i < |refs| ==> !IsSigstore(refs[i].artifactType)
  {
    if refs != [] {
      NoAttestationsIff(refs[1..]);
      assert forall i :: 1 <= i < |refs| ==> refs[i] == refs[1..][i - 1];
    }
  }

  predicate Readable(r: Referrer) {
    IsSigstore(r.artifactType) ==> r.Read().Good? && r.Read().value.Attestation?
  }

  /** The first sigstore referrer that does not yield a bundle was read to its end and is not one. */
  predicate FirstUnreadableIsGarbage(refs: seq<Referrer>) {
    exists k :: 0 <= k < |refs| && IsSigstore(refs[k].artifactType) && refs[k].Read() == Good(Garbage)
                && forall j :: 0 <= j < k ==> Readable(refs[j])
  }

  lemma {:induction false} CollectMeaning(retryThrottled: bool, refs: seq<Referrer>)
    ensures var c := CollectBundles(retryThrottled, refs);
            && (c.Bundles? <==> forall i :: 0 <= i < |refs| ==> Readable(refs[i]))
            && (c.Bundles? ==> c.bundles == Attestations(refs))
            && (c.Failed? ==>
                  && (c.failure.recoverable <==> !Terminal(retryThrottled, c.failure.kind))
                  && c.failure.kind != Unset && c.failure.step != NoStep)
            && (c.Failed? && c.failure.kind == BundleInvalid <==> FirstUnreadableIsGarbage(refs))
  {
    if refs != [] {
      var head, tail := refs[0], refs[1..];
      IsBundleIff(head);
      CollectMeaning(retryThrottled, tail);
      assert forall i :: 1 <= i < |refs| ==> refs[i] == tail[i - 1];
      if !Readable(head) {
        if head.Read().Bad? {
          NewFetchErrorMeaning(retryThrottled, AtBlob, BlobError, head.Read().err);
        }
      } else {
        UnreadableOfTail(refs);
      }
    }
  }

  lemma UnreadableOfTail(refs: seq<Referrer>)
    requires refs != [] && Readable(refs[0])
    ensures FirstUnreadableIsGarbage(refs) <==> FirstUnreadableIsGarbage(refs[1..])
  {
    var tail := refs[1..];
    assert forall i :: 1 <= i < |refs| ==> refs[i] == tail[i - 1];
    if FirstUnreadableIsGarbage(tail) {
      var k :| 0 <= k < |tail| && IsSigstore(tail[k].artifactType) && tail[k].Read() == Good(Garbage)
               && forall j :: 0 <= j < k ==> Readable(tail[j]);
      assert refs[k + 1] == tail[k];
      assert forall j :: 0 <= j < k + 1 ==> Readable(refs[j]);
    }
    if FirstUnreadableIsGarbage(refs) {
      var k :| 0 <= k < |refs| && IsSigstore(refs[k].artifactType) && refs[k].Read() == Good(Garbage)
               && forall j :: 0 <= j < k ==> Readable(refs[j]);
      assert tail[k - 1] == refs[k];
      assert forall j :: 0 <= j < k - 1 ==> tail[j] == refs[j + 1];
    }
  }

  /** The attempt read a layer to its end and could not decode it. */
  predicate ReadButUndecodable(s: Script) {
    s.IndexRead() && FirstUnreadableIsGarbage(s.manifest.value)
  }

  /** All or nothing: an attempt succeeds exactly when the index and every sigstore referrer can be read and decoded;
      it then returns exactly those bundles in manifest order, with a digest present exactly when there are any. */
  lemma AttemptIsAllOrNothing(retryThrottled: bool, s: Script)
    ensures var v := DoBundle(retryThrottled, s);
            && !v.Unstructured?
            && (v.Fetched? <==>
                s.IndexRead() && forall i :: 0 <= i < |s.manifest.value| ==> Readable(s.manifest.value[i]))
            && (v.Fetched? ==>
                  && v.bundles == Attestations(s.manifest.value)
                  && v.digest == if v.bundles == [] then None else Some(s.descriptor.value))
  {
    if s.IndexRead() {
      CollectMeaning(retryThrottled, s.manifest.value);
    }
  }

  /** An error of a fetch step: placed there, and named by the transport or else by the step's fallback. */
  predicate PlacedAt(v: AttemptValue, step: Step, fallback: Kind, e: RawError) {
    && v.Structured? && v.failure.step == step && v.failure.cause == FromRaw(e)
    && v.failure.status == ClassifyTransport(e).1
    && v.failure.kind == if ClassifyTransport(e).0 == Unknown then fallback else ClassifyTransport(e).0
  }

  /** A layer that could not be read is a blob error, one that was read and not decoded an invalid bundle. */
  predicate ReportsReading(v: AttemptValue, read: Reply<Document>) {
    match read
    case Bad(e) => PlacedAt(v, AtBlob, BlobError, e)
    case Good(_) => v == Structured(FetchFailure(AtDecode, BundleInvalid, 0, [], 0, false, NotDecoded))
  }

  /** Referrer `k` is the first sigstore referrer that does not yield a bundle. */
  predicate FirstObstacle(refs: seq<Referrer>, k: nat) {
    k < |refs| && !Readable(refs[k]) && forall j :: 0 <= j < k ==> Readable(refs[j])
  }

  lemma {:induction false} ObstacleDecides(retryThrottled: bool, refs: seq<Referrer>, k: nat)
    requires FirstObstacle(refs, k)
    ensures var c := CollectBundles(retryThrottled, refs);
            c.Failed? && ReportsReading(Structured(c.failure), refs[k].Read())
  {
    IsBundleIff(refs[0]);
    if k > 0 {
      assert Readable(refs[0]);
      ObstacleDecides(retryThrottled, refs[1..], k - 1);
    }
  }

  /** Which call gives which step and which fallback kind: the first one that fails. */
  lemma AttemptFailurePlaces(retryThrottled: bool, s: Script)
    ensures var v := DoBundle(retryThrottled, s);
            && (s.puller.Some? ==> PlacedAt(v, AtDescriptor, DescriptorError, s.puller.value))
            && (s.puller.None? && s.descriptor.Bad? ==> PlacedAt(v, AtDescriptor, DescriptorError, s.descriptor.err))
            && (s.puller.None? && s.descriptor.Good? && s.referrers.Some? ==>
                  PlacedAt(v, AtReferrers, ReferrersUnavailable, s.referrers.value))
            && (s.puller.None? && s.descriptor.Good? && s.referrers.None? && s.manifest.Bad? ==>
                  PlacedAt(v, AtReferrers, ReferrersUnavailable, s.manifest.err))
            && (s.IndexRead() ==> forall k: nat | FirstObstacle(s.manifest.value, k) ::
                  ReportsReading(v, s.manifest.value[k].Read()))
  {
    if s.IndexRead() {
      forall k: nat | FirstObstacle(s.manifest.value, k)
        ensures ReportsReading(DoBundle(retryThrottled, s), s.manifest.value[k].Read())
      {
        ObstacleDecides(retryThrottled, s.manifest.value, k);
      }
    }
  }

  /** A failed attempt is named, placed, recoverable exactly when its kind is not terminal, and an invalid bundle
      exactly when a layer was read and not decoded. */
  lemma AttemptFailureMeaning(retryThrottled: bool, s: Script)
    ensures var v := DoBundle(retryThrottled, s);
            && (v.Structured? ==>
                  && (v.failure.recoverable <==> !Terminal(retryThrottled, v.failure.kind))
                  && v.failure.kind != Unset && v.failure.step != NoStep)
            && (v.Structured? && v.failure.kind == BundleInvalid <==> ReadButUndecodable(s))
  {
    if s.IndexRead() {
      CollectMeaning(retryThrottled, s.manifest.value);
    } else if s.puller.Some? {
      NewFetchErrorMeaning(retryThrottled, AtDescriptor, DescriptorError, s.puller.value);
    } else if s.descriptor.Bad? {
      NewFetchErrorMeaning(retryThrottled, AtDescriptor, DescriptorError, s.descriptor.err);
    } else if s.referrers.Some? {
      NewFetchErrorMeaning(retryThrottled, AtReferrers, ReferrersUnavailable, s.referrers.value);
    } else {
      NewFetchErrorMeaning(retryThrottled, AtReferrers, ReferrersUnavailable, s.manifest.err);
    }
  }
}

/** How failures are written in logs, metrics and items: the names of kinds and steps, and the rendering of an
    attempt trail with its inverse. */
module Naming {
  import opened Common
  import opened Failures
  import Text

  function KindName(k: Kind): string {
    match k
    case Unset => ""
    case Timeout => "timeout"
    case Canceled => "canceled"
    case Unauthorized => "unauthorized"
    case Forbidden => "forbidden"
    case Throttled => "throttled"
    case NotFound => "not_found"
    case ReferrersUnavailable => "referrers_unavailable"
    case DescriptorError => "descriptor_error"
    case BlobError => "blob_error"
    case BundleInvalid => "bundle_invalid"
    case Unknown => "unknown"
  }

  function StepName(s: Step): string {
    match s
    case NoStep => ""
    case AtDescriptor => "descriptor"
    case AtReferrers => "referrers"
    case AtBlob => "blob"
    case AtDecode => "decode"
  }

  /** The empty reason reads as unknown. */
  function Read(o: AttemptOutcome): AttemptOutcome {
    if o.reason == Unset then o.(reason := Unknown) else o
  }

  function Token(o: AttemptOutcome): string {
    var reason := KindName(Read(o).reason);
    if o.step == NoStep then reason else reason + ":" + StepName(o.step)
  }

  function Tokens(trail: seq<AttemptOutcome>): (ts: seq<string>)
    ensures |ts| == |trail|
    ensures forall i :: 0 <= i < |trail| ==> ts[i] == Token(trail[i])
  {
    seq(|trail|, i requires 0 <= i < |trail| => Token(trail[i]))
  }

  function Rendered(trail: seq<AttemptOutcome>): string {
    Text.Join(Tokens(trail), ',')
  }

  /** `formatAttemptTrail`. */
  method FormatAttemptTrail(outcomes: seq<AttemptOutcome>) returns (s: string)
    ensures s == Rendered(outcomes)
  {
    if |outcomes| == 0 {
      return "";
    }
    var tokens := new string[|outcomes|](_ => "");
    for i := 0 to |outcomes|
      invariant forall k :: 0 <= k < i ==> tokens[k] == Token(outcomes[k])
    {
      var o := outcomes[i];
      var reason := KindName(o.reason);
      if o.reason == Unset {
        reason := KindName(Unknown);
      }
      if o.step == NoStep {
        tokens[i] := reason;
        continue;
      }
      tokens[i] := reason + ":" + StepName(o.step);
    }
    assert tokens[..] == Tokens(outcomes);
    return Text.Join(tokens[..], ',');
  }

  /** The declared names of kinds and steps. */
  lemma DeclaredNames()
    ensures KindName(Timeout) == "timeout" && KindName(Canceled) == "canceled" && KindName(Unknown) == "unknown"
    ensures KindName(Unauthorized) == "unauthorized" && KindName(Forbidden) == "forbidden"
    ensures KindName(Throttled) == "throttled" && KindName(NotFound) == "not_found"
    ensures KindName(ReferrersUnavailable) == "referrers_unavailable" && KindName(BlobError) == "blob_error"
    ensures KindName(DescriptorError) == "descriptor_error" && KindName(BundleInvalid) == "bundle_invalid"
    ensures StepName(AtDescriptor) == "descriptor" && StepName(AtReferrers) == "referrers"
    ensures StepName(AtBlob) == "blob" && StepName(AtDecode) == "decode"
  {
  }

  /** How a trail is written: tokens joined by commas, a token being a reason, with a colon and the step if there is
      one. */
  lemma RenderedMeaning(o: AttemptOutcome, rest: seq<AttemptOutcome>)
    ensures Rendered([]) == "" && Rendered([o]) == Token(o)
    ensures rest != [] ==> Rendered([o] + rest) == Token(o) + "," + Rendered(rest)
    ensures o.reason == Unset ==> Token(o) == Token(AttemptOutcome(Unknown, o.step))
    ensures o.reason != Unset && o.step == NoStep ==> Token(o) == KindName(o.reason)
    ensures o.reason != Unset && o.step != NoStep ==> Token(o) == KindName(o.reason) + ":" + StepName(o.step)
  {
    assert Tokens([o]) == [Token(o)];
    assert Tokens([o] + rest)[1..] == Tokens(rest);
  }

  // ---- Reading a rendered trail back ----

  /** The only kind whose name has this length and this first character. */
  function Candidate(name: string): Kind
    requires name != ""
  {
    match |name|
    case 7 => if name[0] == 't' then Timeout else Unknown
    case 8 => Canceled
    case 9 => if name[0] == 'f' then Forbidden else if name[0] == 't' then Throttled else NotFound
    case 10 => BlobError
    case 12 => Unauthorized
    case 14 => BundleInvalid
    case 16 => DescriptorError
    case _ => ReferrersUnavailable
  }

  function KindOf(name: string): Option<Kind> {
    if name != "" && KindName(Candidate(name)) == name then Some(Candidate(name)) else None
  }

  function StepNamed(name: string): Option<Step> {
    var s := match |name| case 4 => AtBlob case 6 => AtDecode case 9 => AtReferrers case _ => AtDescriptor;
    if StepName(s) == name then Some(s) else None
  }

  function ParseToken(token: string): Option<AttemptOutcome> {
    var parts := Text.Split(token, ':');
    if |parts| == 1 then
      match KindOf(parts[0]) case None => None case Some(k) => Some(AttemptOutcome(k, NoStep))
    else if |parts| == 2 then
      match (KindOf(parts[0]), StepNamed(parts[1]))
      case (Some(k), Some(s)) => Some(AttemptOutcome(k, s))
      case _ => None
    else None
  }

  function ParseTokens(tokens: seq<string>): Option<seq<AttemptOutcome>> {
    if tokens == [] then Some([])
    else match (ParseToken(tokens[0]), ParseTokens(tokens[1..]))
      case (Some(o), Some(rest)) => Some([o] + rest)
      case _ => None
  }

  /** The inverse of the rendering: cut at commas, then at colons. */
  function ParseTrail(s: string): Option<seq<AttemptOutcome>> {
    if s == "" then Some([]) else ParseTokens(Text.Split(s, ','))
  }

  /** A name has neither of the two separators. */
  predicate Plain(s: string) {
    ',' !in s && ':' !in s
  }

  lemma KindNameReads(k: Kind)
    requires k != Unset
    ensures KindOf(KindName(k)) == Some(k)
  {
  }

  lemma StepKindNamesArePlain(k: Kind)
    requires k in {ReferrersUnavailable, DescriptorError, BlobError, BundleInvalid}
    ensures Plain(KindName(k))
  {
  }

  lemma KindNameIsPlain(k: Kind)
    ensures Plain(KindName(k))
  {
    if k in {ReferrersUnavailable, DescriptorError, BlobError, BundleInvalid} {
      StepKindNamesArePlain(k);
    }
  }

  lemma StepNameReads(s: Step)
    requires s != NoStep
    ensures StepNamed(StepName(s)) == Some(s) && Plain(StepName(s))
  {
  }

  lemma SplitOfToken(reason: string, step: string)
    requires Plain(reason) && Plain(step)
    ensures Text.Split(reason, ':') == [reason]
    ensures Text.Split(reason + ":" + step, ':') == [reason, step]
    ensures ',' !in reason && ',' !in reason + ":" + step
  {
    Text.SplitOfPiece(reason, ':');
    Text.SplitOfPiece(step, ':');
    Text.SplitOfConcat(reason, step, ':');
  }

  lemma ParseOfToken(reason: string, step: string, k: Kind, s: Step)
    requires Plain(reason) && Plain(step)
    requires KindOf(reason) == Some(k) && StepNamed(step) == Some(s)
    ensures ParseToken(reason) == Some(AttemptOutcome(k, NoStep))
    ensures ParseToken(reason + ":" + step) == Some(AttemptOutcome(k, s))
  {
    SplitOfToken(reason, step);
  }

  lemma TokenReads(o: AttemptOutcome)
    ensures ParseToken(Token(o)) == Some(Read(o))
    ensures ',' !in Token(o) && Token(o) != ""
  {
    var k := Read(o).reason;
    var s := if o.step == NoStep then AtBlob else o.step;
    KindNameReads(k);
    KindNameIsPlain(k);
    StepNameReads(s);
    SplitOfToken(KindName(k), StepName(s));
    ParseOfToken(KindName(k), StepName(s), k, s);
  }

  function ReadAll(trail: seq<AttemptOutcome>): (r: seq<AttemptOutcome>)
    ensures |r| == |trail| && forall i :: 0 <= i < |trail| ==> r[i] == Read(trail[i])
  {
    if trail == [] then [] else [Read(trail[0])] + ReadAll(trail[1..])
  }

  lemma {:induction false} TokensRead(trail: seq<AttemptOutcome>)
    ensures ParseTokens(Tokens(trail)) == Some(ReadAll(trail))
  {
    if trail != [] {
      TokenReads(trail[0]);
      assert Tokens(trail)[1..] == Tokens(trail[1..]);
      TokensRead(trail[1..]);
    }
  }

  /** The rendering can be read back. */
  lemma TrailRoundTrip(trail: seq<AttemptOutcome>)
    ensures ParseTrail(Rendered(trail)) == Some(ReadAll(trail))
  {
    if trail != [] {
      var ts := Tokens(trail);
      forall t | t in ts ensures ',' !in t && t != "" {
        var i :| 0 <= i < |ts| && ts[i] == t;
        TokenReads(trail[i]);
      }
      assert ts[0] in ts;
      Text.SplitOfJoin(ts, ',');
      assert Text.Split("", ',') == [""];
      TokensRead(trail);
    }
  }

  /** No entry has the empty reason. */
  predicate Named(trail: seq<AttemptOutcome>) {
    forall i :: 0 <= i < |trail| ==> trail[i].reason != Unset
  }

  lemma ReadAllOfNamed(trail: seq<AttemptOutcome>)
    requires Named(trail)
    ensures ReadAll(trail) == trail
  {
  }

  /** Trails that render alike have the same length and read the same entry by entry; they are equal when no reason is
      empty. */
  lemma {:induction false} RenderingIsInjective(a: seq<AttemptOutcome>, b: seq<AttemptOutcome>)
    requires Rendered(a) == Rendered(b)
    ensures |a| == |b| && forall i :: 0 <= i < |a| ==> Read(a[i]) == Read(b[i])
    ensures Named(a) && Named(b) ==> a == b
  {
    TrailRoundTrip(a);
    TrailRoundTrip(b);
    assert forall i :: 0 <= i < |a| ==> ReadAll(a)[i] == Read(a[i]) && ReadAll(b)[i] == Read(b[i]);
    if Named(a) && Named(b) {
      ReadAllOfNamed(a);
      ReadAllOfNamed(b);
    }
  }
}

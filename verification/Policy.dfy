/** The policy rules over verification results: suffix tests that stand for path segments. */
module Policy {
  import opened Text
  import opened Verifying

  const PROVENANCE := "https://slsa.dev/provenance/v1"
  const ISSUER := "https://token.actions.githubusercontent.com"
  const MARKER := "/.github/"

  /** The provider's answers as rules see them: pairs of an image and its verification results. */
  type Responses = seq<(string, seq<Verified>)>

  /** `endswith(uri, concat("", ["/", name]))`. */
  predicate Matches(uri: string, name: string) {
    IsSuffix("/" + name, uri)
  }

  predicate MatchesSome(uri: string, names: seq<string>) {
    exists l :: 0 <= l < |names| && Matches(uri, names[l])
  }

  /** `substring(s, 0, length)`: a negative length means the rest of the string. */
  function SubstringFromStart(s: string, length: int): string
    requires length <= |s|
  {
    if length < 0 then s else s[..length]
  }

  /** The signer URI up to the first marker, or all of it when there is none. */
  function SignerRepoTrim(uri: string): string {
    SubstringFromStart(uri, IndexOf(uri, MARKER))
  }

  predicate SignerMatches(uri: string, repo: string) {
    IsSuffix("/" + repo, "/" + SignerRepoTrim(uri))
  }

  predicate SignerMatchesSome(uri: string, repos: seq<string>) {
    exists m :: 0 <= m < |repos| && SignerMatches(uri, repos[m])
  }

  predicate IsProvenance(v: Verified) {
    v.predicateType == PROVENANCE && v.issuer == ISSUER
  }

  predicate OwnedBy(v: Verified, orgs: seq<string>) {
    IsProvenance(v) && MatchesSome(v.sourceRepositoryOwnerURI, orgs)
  }

  predicate BuiltFrom(v: Verified, repos: seq<string>) {
    IsProvenance(v) && MatchesSome(v.sourceRepositoryURI, repos)
  }

  predicate FromOrg(resp: Responses, orgs: seq<string>) {
    exists i :: 0 <= i < |resp| && exists k :: 0 <= k < |resp[i].1| && OwnedBy(resp[i].1[k], orgs)
  }

  predicate FromRepo(resp: Responses, repos: seq<string>) {
    exists i :: 0 <= i < |resp| && exists k :: 0 <= k < |resp[i].1| && BuiltFrom(resp[i].1[k], repos)
  }

  /** Everything the strictest rule asks of one attestation. */
  predicate Carries(v: Verified, orgs: seq<string>, signerRepos: seq<string>) {
    && OwnedBy(v, orgs)
    && SignerMatchesSome(v.buildSignerURI, signerRepos)
  }

  predicate SomeCarries(vs: seq<Verified>, orgs: seq<string>, signerRepos: seq<string>) {
    exists k :: 0 <= k < |vs| && Carries(vs[k], orgs, signerRepos)
  }

  predicate FromOrgWithSignerRepo(resp: Responses, orgs: seq<string>, signerRepos: seq<string>) {
    exists i :: 0 <= i < |resp| && SomeCarries(resp[i].1, orgs, signerRepos)
  }

  // ---- Suffix tests are segment tests ----

  function Segments(uri: string): (parts: seq<string>)
    ensures |parts| > 0
  {
    Split(uri, '/')
  }

  predicate EndsWithSegments(uri: string, name: string) {
    |Segments(uri)| > |Segments(name)| && IsSuffix(Segments(name), Segments(uri))
  }

  /** For any name, the suffix test asks that the URI's path end with the name's segments, with at least one more in
      front of them. */
  lemma MatchIsSegmentSuffix(uri: string, name: string)
    ensures Matches(uri, name) <==> EndsWithSegments(uri, name)
  {
    SuffixIsSegmentSuffix(uri, name, '/');
  }

  /** For an organisation name without a slash: the URI has a slash and its last segment is the organisation. */
  lemma OrgMatchIsLastSegment(uri: string, org: string)
    requires '/' !in org
    ensures Matches(uri, org) <==> |Segments(uri)| > 1 && Segments(uri)[|Segments(uri)| - 1] == org
  {
    MatchIsSegmentSuffix(uri, org);
    SplitOfPiece(org, '/');
    var s := Segments(uri);
    assert s[|s| - 1..] == [s[|s| - 1]];
  }

  lemma SegmentsOfPair(owner: string, repo: string)
    requires '/' !in owner && '/' !in repo
    ensures Segments(owner + "/" + repo) == [owner, repo]
  {
    SplitOfConcat(owner, repo, '/');
    SplitOfPiece(owner, '/');
    SplitOfPiece(repo, '/');
  }

  lemma PairIsSuffix(owner: string, repo: string, whole: seq<string>)
    ensures IsSuffix([owner, repo], whole) <==>
            |whole| >= 2 && whole[|whole| - 2] == owner && whole[|whole| - 1] == repo
  {
    if |whole| >= 2 {
      assert whole[|whole| - 2..] == [whole[|whole| - 2], whole[|whole| - 1]];
    }
  }

  /** For `owner/repo`: the URI has something in front of its last two segments, and these are owner and repository. */
  lemma RepoMatchIsLastTwoSegments(uri: string, owner: string, repo: string)
    requires '/' !in owner && '/' !in repo
    ensures Matches(uri, owner + "/" + repo) <==>
            var s := Segments(uri); |s| > 2 && s[|s| - 2] == owner && s[|s| - 1] == repo
  {
    MatchIsSegmentSuffix(uri, owner + "/" + repo);
    SegmentsOfPair(owner, repo);
    PairIsSuffix(owner, repo, Segments(uri));
  }

  predicate OrgIn(uri: string, orgs: seq<string>) {
    |Segments(uri)| > 1 && Segments(uri)[|Segments(uri)| - 1] in orgs
  }

  /** The organisation rule, for names without a slash: some attestation of provenance has an owner URI whose last
      segment is one of the organisations. */
  lemma FromOrgMeaning(resp: Responses, orgs: seq<string>)
    requires forall l :: 0 <= l < |orgs| ==> '/' !in orgs[l]
    ensures FromOrg(resp, orgs) <==>
            exists i, k :: 0 <= i < |resp| && 0 <= k < |resp[i].1|
                           && resp[i].1[k].predicateType == "https://slsa.dev/provenance/v1"
                           && resp[i].1[k].issuer == "https://token.actions.githubusercontent.com"
                           && OrgIn(resp[i].1[k].sourceRepositoryOwnerURI, orgs)
  {
    forall uri ensures MatchesSome(uri, orgs) <==> OrgIn(uri, orgs) {
      forall l | 0 <= l < |orgs|
        ensures Matches(uri, orgs[l]) <==> |Segments(uri)| > 1 && Segments(uri)[|Segments(uri)| - 1] == orgs[l]
      {
        OrgMatchIsLastSegment(uri, orgs[l]);
      }
    }
  }

  predicate EndsWithOne(uri: string, names: seq<string>) {
    exists l :: 0 <= l < |names| && EndsWithSegments(uri, names[l])
  }

  lemma MatchesSomeIsEndsWithOne(uri: string, names: seq<string>)
    ensures MatchesSome(uri, names) <==> EndsWithOne(uri, names)
  {
    forall l | 0 <= l < |names| ensures Matches(uri, names[l]) <==> EndsWithSegments(uri, names[l]) {
      MatchIsSegmentSuffix(uri, names[l]);
    }
  }

  /** The repository rule: some attestation of provenance has a source URI that ends with the segments of one of the
      repositories. */
  lemma FromRepoMeaning(resp: Responses, repos: seq<string>)
    ensures FromRepo(resp, repos) <==>
            exists i, k :: 0 <= i < |resp| && 0 <= k < |resp[i].1|
                           && resp[i].1[k].predicateType == "https://slsa.dev/provenance/v1"
                           && resp[i].1[k].issuer == "https://token.actions.githubusercontent.com"
                           && EndsWithOne(resp[i].1[k].sourceRepositoryURI, repos)
  {
    forall uri ensures MatchesSome(uri, repos) <==> EndsWithOne(uri, repos) {
      MatchesSomeIsEndsWithOne(uri, repos);
    }
  }

  predicate SignerEndsWith(uri: string, repo: string) {
    IsSuffix(Segments(repo), Segments(SignerRepoTrim(uri)))
  }

  /** For any signer URI, with the marker or without: the part before the first marker ends with the segments of
      the allowed repository. */
  lemma SignerMatchIsSegmentSuffix(uri: string, repo: string)
    ensures SignerMatches(uri, repo) <==> SignerEndsWith(uri, repo)
  {
    var trim := SignerRepoTrim(uri);
    SuffixIsSegmentSuffix("/" + trim, repo, '/');
    SplitOfConcat("", trim, '/');
    assert "" + "/" + trim == "/" + trim;
    var s, r := Segments(trim), Segments(repo);
    assert Split("/" + trim, '/') == [""] + s;
    assert |r| <= |s| ==> ([""] + s)[|s| + 1 - |r|..] == s[|s| - |r|..];
  }

  /** What the strictest rule asks of one attestation, in terms of its fields and their path segments. */
  predicate Meets(v: Verified, orgs: seq<string>, signerRepos: seq<string>) {
    && v.predicateType == "https://slsa.dev/provenance/v1"
    && v.issuer == "https://token.actions.githubusercontent.com"
    && EndsWithOne(v.sourceRepositoryOwnerURI, orgs)
    && exists m :: 0 <= m < |signerRepos| && SignerEndsWith(v.buildSignerURI, signerRepos[m])
  }

  lemma CarriesIffMeets(v: Verified, orgs: seq<string>, signerRepos: seq<string>)
    ensures Carries(v, orgs, signerRepos) <==> Meets(v, orgs, signerRepos)
  {
    MatchesSomeIsEndsWithOne(v.sourceRepositoryOwnerURI, orgs);
    forall m | 0 <= m < |signerRepos|
      ensures SignerMatches(v.buildSignerURI, signerRepos[m]) <==> SignerEndsWith(v.buildSignerURI, signerRepos[m])
    {
      SignerMatchIsSegmentSuffix(v.buildSignerURI, signerRepos[m]);
    }
  }

  /** The signer rule: some one attestation has the provenance type, the issuer, an owner URI ending with an allowed
      organisation and a signer ending with an allowed repository. */
  lemma FromOrgWithSignerRepoMeaning(resp: Responses, orgs: seq<string>, signerRepos: seq<string>)
    ensures FromOrgWithSignerRepo(resp, orgs, signerRepos) <==>
            exists i, k :: 0 <= i < |resp| && 0 <= k < |resp[i].1| && Meets(resp[i].1[k], orgs, signerRepos)
  {
    forall v ensures Carries(v, orgs, signerRepos) <==> Meets(v, orgs, signerRepos) {
      CarriesIffMeets(v, orgs, signerRepos);
    }
  }

  // ---- Where the marker is first ----

  /** A segment between two slashes. */
  function Mark(name: string): string {
    ['/'] + name + ['/']
  }

  lemma MarkerIsMark()
    ensures MARKER == Mark(".github")
  {
  }

  predicate OccursAt(t: string, s: string, k: int) {
    0 <= k <= |s| - |t| && s[k..k + |t|] == t
  }

  /** What is kept of a signer URI: everything before the first marker, or all of it when there is none. */
  lemma SignerTrimMeaning(uri: string)
    ensures var t := SignerRepoTrim(uri);
            && t <= uri
            && (forall k :: OccursAt("/.github/", uri, k) ==> OccursAt("/.github/", uri, |t|) && |t| <= k)
            && ((forall k :: !OccursAt("/.github/", uri, k)) ==> t == uri)
  {
    var p := IndexOf(uri, MARKER);
    if p >= 0 {
      IndexOfFinds(uri, MARKER);
      assert OccursAt(MARKER, uri, p);
    }
    forall k | OccursAt(MARKER, uri, k) ensures 0 <= p <= k {
      IndexOfIsFirst(uri, MARKER, k);
    }
  }

  lemma OccursBetween(x: string, t: string, y: string)
    ensures OccursAt(t, x + t + y, |x|)
  {
  }

  lemma MarkShape(name: string, s: string, k: int)
    requires OccursAt(Mark(name), s, k) && '/' !in name
    ensures s[k] == '/' && s[k + |name| + 1] == '/' && s[k + 1..k + |name| + 1] == name
    ensures forall i :: k < i <= k + |name| ==> s[i] != '/'
  {
    var m := Mark(name);
    assert forall i :: 0 <= i < |m| ==> s[k + i] == m[i];
    assert m[1..|name| + 1] == name;
    forall i | k < i <= k + |name| ensures s[i] != '/' {
      assert s[i] == m[i - k] == name[i - k - 1];
    }
  }

  lemma OccursInPrefix(t: string, s: string, more: string, k: int)
    requires OccursAt(t, s + more, k) && k + |t| <= |s|
    ensures 0 <= IndexOf(s, t) <= k
  {
    assert s[k..k + |t|] == (s + more)[k..k + |t|];
    IndexOfIsFirst(s, t, k);
  }

  /** Without a mark in `a/`, any mark of `a/` followed by more comes at its last slash or later. */
  lemma NoMarkBefore(name: string, a: string, more: string, k: int)
    requires '/' !in name && IndexOf(a + ['/'], Mark(name)) == -1
    requires OccursAt(Mark(name), a + ['/'] + more, k)
    ensures k >= |a|
  {
    var s := a + ['/'] + more;
    MarkShape(name, s, k);
    assert s[|a|] == '/';
    if k < |a| {
      OccursInPrefix(Mark(name), a + ['/'], more, k);
    }
  }

  /** A mark that starts at the slash before a slash-free piece names that piece. */
  lemma MarkNamesPiece(name: string, a: string, piece: string, more: string)
    requires '/' !in name && '/' !in piece && OccursAt(Mark(name), a + ['/'] + piece + ['/'] + more, |a|)
    ensures piece == name
  {
    var s, n := a + ['/'] + piece + ['/'] + more, |a| + 1 + |piece|;
    MarkShape(name, s, |a|);
    assert s[n] == '/';
    assert forall i :: 0 <= i < |piece| ==> s[|a| + 1 + i] == piece[i];
    assert s[|a| + 1..n] == piece;
  }

  lemma FirstOccurrence(t: string, x: string, y: string, p: int)
    requires p == IndexOf(x + t + y, t)
    ensures 0 <= p <= |x| && OccursAt(t, x + t + y, p)
  {
    OccursBetween(x, t, y);
    IndexOfIsFirst(x + t + y, t, |x|);
    IndexOfFinds(x + t + y, t);
  }

  lemma MarkAsPieces(name: string, a: string, more: string)
    ensures a + Mark(name) + more == a + ['/'] + (name + ['/'] + more)
  {
  }

  lemma PiecesRegrouped(a: string, piece: string, more: string)
    ensures a + ['/'] + piece + ['/'] + more == a + ['/'] + (piece + ['/'] + more)
  {
  }

  /** Where `a/` has no mark and the next piece is the mark's own name, the first mark is at that piece. */
  lemma {:induction false} FirstMarkIsEarly(name: string, a: string, more: string)
    requires '/' !in name && IndexOf(a + ['/'], Mark(name)) == -1
    ensures IndexOf(a + Mark(name) + more, Mark(name)) == |a|
  {
    var p := IndexOf(a + Mark(name) + more, Mark(name));
    FirstOccurrence(Mark(name), a, more, p);
    MarkAsPieces(name, a, more);
    NoMarkBefore(name, a, name + ['/'] + more, p);
  }

  /** After the slash that ends `a/`, the next slash is the one behind the piece. */
  lemma NextSlash(a: string, piece: string, more: string, k: int)
    requires '/' !in piece && |a| < k < |a| + 1 + |piece|
    ensures (a + ['/'] + piece + ['/'] + more)[k] != '/'
  {
    assert (a + ['/'] + piece + ['/'] + more)[k] == piece[k - |a| - 1];
  }

  /** Where `a/` has no mark and the next piece has another name, the first mark is behind the piece. */
  lemma {:induction false} FirstMarkIsWritten(name: string, a: string, piece: string, more: string)
    requires '/' !in name && '/' !in piece && piece != name && IndexOf(a + ['/'], Mark(name)) == -1
    ensures IndexOf(a + ['/'] + piece + Mark(name) + more, Mark(name)) == |a| + 1 + |piece|
  {
    var head, tail := a + ['/'] + piece, name + ['/'] + more;
    var p := IndexOf(head + Mark(name) + more, Mark(name));
    FirstOccurrence(Mark(name), head, more, p);
    MarkAsPieces(name, head, more);
    PiecesRegrouped(a, piece, tail);
    NoMarkBefore(name, a, piece + ['/'] + tail, p);
    MarkShape(name, head + Mark(name) + more, p);
    if |a| < p < |head| {
      NextSlash(a, piece, tail, p);
    } else if p == |a| {
      MarkNamesPiece(name, a, piece, tail);
    }
  }

  /** A signer URI in the documented form. */
  function SignerURI(prefix: string, owner: string, repo: string, rest: string): string {
    prefix + "/" + owner + "/" + repo + MARKER + rest
  }

  /** What the rule is meant to test: exactly the signer's own owner and repository match. */
  ghost predicate ReadsSigner(uri: string, owner: string, repo: string) {
    forall allowedOwner, allowedRepo | '/' !in allowedOwner && '/' !in allowedRepo ::
      SignerMatches(uri, allowedOwner + "/" + allowedRepo) <==> allowedOwner == owner && allowedRepo == repo
  }

  lemma SegmentsOfHead(prefix: string, owner: string, repo: string)
    requires '/' !in owner && '/' !in repo
    ensures Segments(prefix + "/" + owner) == Segments(prefix) + [owner]
    ensures Segments(prefix + "/" + owner + "/" + repo) == Segments(prefix) + [owner] + [repo]
  {
    SplitOfConcat(prefix, owner, '/');
    SplitOfPiece(owner, '/');
    SplitOfConcat(prefix + "/" + owner, repo, '/');
    SplitOfPiece(repo, '/');
  }

  lemma SignerMatchIsLastTwo(uri: string, owner: string, repo: string)
    requires '/' !in owner && '/' !in repo
    ensures SignerMatches(uri, owner + "/" + repo) <==>
            var s := Segments(SignerRepoTrim(uri)); |s| >= 2 && s[|s| - 2] == owner && s[|s| - 1] == repo
  {
    SignerMatchIsSegmentSuffix(uri, owner + "/" + repo);
    SegmentsOfPair(owner, repo);
    PairIsSuffix(owner, repo, Segments(SignerRepoTrim(uri)));
  }

  /** For prefix/owner/repo/.github/rest with no marker before the repository: the match holds exactly for the same
      owner and repository, if and only if the repository is not called `.github`. */
  lemma SignerMatchIsSameRepoIff(prefix: string, owner: string, repo: string, rest: string)
    requires '/' !in owner && '/' !in repo && IndexOf(prefix + "/" + owner + "/", MARKER) == -1
    ensures ReadsSigner(SignerURI(prefix, owner, repo, rest), owner, repo) <==> repo != ".github"
  {
    var uri := SignerURI(prefix, owner, repo, rest);
    if repo != ".github" {
      MarkerIsMark();
      FirstMarkIsWritten(".github", prefix + "/" + owner, repo, rest);
      assert SignerRepoTrim(uri) == prefix + "/" + owner + "/" + repo;
      SegmentsOfHead(prefix, owner, repo);
      forall allowedOwner, allowedRepo | '/' !in allowedOwner && '/' !in allowedRepo
        ensures SignerMatches(uri, allowedOwner + "/" + allowedRepo) <==> allowedOwner == owner && allowedRepo == repo
      {
        SignerMatchIsLastTwo(uri, allowedOwner, allowedRepo);
      }
    } else {
      DotGithubRepoIsRefused(prefix, owner, rest);
    }
  }

  lemma OwnSignerMatches(prefix: string, owner: string, repo: string, rest: string)
    requires '/' !in owner && '/' !in repo && IndexOf(prefix + "/" + owner + "/", MARKER) == -1 && repo != ".github"
    ensures SignerMatches(SignerURI(prefix, owner, repo, rest), owner + "/" + repo)
  {
    SignerMatchIsSameRepoIff(prefix, owner, repo, rest);
  }

  lemma OwnerMatchesIff(host: string, owner: string, org: string)
    requires '/' !in owner && '/' !in org
    ensures Matches(host + "/" + owner, org) <==> owner == org
  {
    SegmentsOfHead(host, owner, org);
    OrgMatchIsLastSegment(host + "/" + owner, org);
  }

  lemma CarriesOfSingles(v: Verified, org: string, repo: string)
    ensures Carries(v, [org], [repo]) <==>
            IsProvenance(v) && Matches(v.sourceRepositoryOwnerURI, org) && SignerMatches(v.buildSignerURI, repo)
  {
    assert [org][0] == org && [repo][0] == repo;
  }

  lemma OwnerIsNoMark(prefix: string, owner: string, name: string)
    requires IndexOf(prefix + "/" + owner + "/", Mark(name)) == -1
    ensures owner != name
  {
    if owner == name {
      OccursBetween(prefix, Mark(name), []);
      assert prefix + "/" + owner + "/" == prefix + Mark(name) + [];
      IndexOfIsFirst(prefix + "/" + owner + "/", Mark(name), |prefix|);
    }
  }

  /** A signer in an organisation's `.github` repository is refused even where that repository is allowed: the first
      marker is one segment early. */
  lemma DotGithubRepoIsRefused(prefix: string, owner: string, rest: string)
    requires '/' !in owner && IndexOf(prefix + "/" + owner + "/", MARKER) == -1
    ensures !SignerMatches(SignerURI(prefix, owner, ".github", rest), owner + "/" + ".github")
  {
    var name := ".github";
    MarkerIsMark();
    EarlyTrim(prefix + "/" + owner, name, rest);
    SegmentsOfHead(prefix, owner, name);
    SignerMatchIsLastTwo(SignerURI(prefix, owner, name, rest), owner, name);
    OwnerIsNoMark(prefix, owner, name);
  }

  lemma EarlyTrim(a: string, name: string, rest: string)
    requires '/' !in name && Mark(name) == MARKER && IndexOf(a + "/", MARKER) == -1
    ensures SignerRepoTrim(a + "/" + name + MARKER + rest) == a
  {
    FirstMarkIsEarly(name, a, name + ['/'] + rest);
    MarkTwice(a, name, rest);
  }

  lemma MarkTwice(a: string, name: string, rest: string)
    ensures a + ['/'] + name + Mark(name) + rest == a + Mark(name) + (name + ['/'] + rest)
    ensures (a + Mark(name) + (name + ['/'] + rest))[..|a|] == a
  {
  }

  lemma FirstTwo(s: string, t: string)
    requires |t| >= 2 && IndexOf(s, t) >= 0
    ensures var p := IndexOf(s, t); p + 1 < |s| && s[p] == t[0] && s[p + 1] == t[1]
  {
    var p := IndexOf(s, t);
    IndexOfFinds(s, t);
    assert s[p] == s[p..p + |t|][0] && s[p + 1] == s[p..p + |t|][1];
  }

  lemma NoOccurrence(s: string, t: string)
    requires |t| >= 2 && forall i :: 0 <= i < |s| - 1 && s[i] == t[0] ==> s[i + 1] != t[1]
    ensures IndexOf(s, t) == -1
  {
    if IndexOf(s, t) >= 0 {
      FirstTwo(s, t);
    }
  }

  lemma NoMarkerInHost(s: string)
    requires s == "https://github.com/o/"
    ensures IndexOf(s, MARKER) == -1
  {
    assert |s| == 21 && forall i :: 0 <= i < 20 && s[i] == '/' ==> s[i + 1] != '.';
    NoOccurrence(s, MARKER);
  }

  /** Such a signer, written out: https://github.com/o/.github/.github/workflows/w.yml@r. */
  lemma DotGithubRepoWitness()
    ensures !SignerMatches(SignerURI("https://github.com", "o", ".github", "workflows/w.yml@r"), "o" + "/" + ".github")
  {
    var prefix, owner := "https://github.com", "o";
    assert prefix + "/" + owner + "/" == "https://github.com/o/";
    NoMarkerInHost(prefix + "/" + owner + "/");
    DotGithubRepoIsRefused(prefix, owner, "workflows/w.yml@r");
  }
}

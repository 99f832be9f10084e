/** Verification against several trust roots: `Multi.Verify` and the single-root `Verifier.Verify`. */
module Verifying {
  import opened Common
  import opened Registry

  /** A trust root, known by its name. */
  datatype Root = Root(name: string)

  /** The parts of a verification result that policies look at. */
  datatype Verified = Verified(
    predicateType: string, issuer: string, sourceRepositoryOwnerURI: string, sourceRepositoryURI: string,
    buildSignerURI: string)

  /** `VerifyOne`: the result of checking a bundle against a root and a digest, or None where it fails. */
  type Check = (Root, Bundle, Digest) -> Option<Verified>

  /** The result of the first root that accepts. */
  function FirstAccepting(check: Check, roots: seq<Root>, b: Bundle, d: Digest): Option<Verified> {
    if roots == [] then None
    else if check(roots[0], b, d).Some? then check(roots[0], b, d)
    else FirstAccepting(check, roots[1..], b, d)
  }

  /** One result for every bundle some root accepts, in bundle order. */
  function FilterMap(check: Check, roots: seq<Root>, bs: seq<Bundle>, d: Digest): seq<Verified> {
    if bs == [] then []
    else
      FilterMap(check, roots, bs[..|bs| - 1], d)
      + match FirstAccepting(check, roots, bs[|bs| - 1], d) case None => [] case Some(v) => [v]
  }

  class Multi {
    const v: seq<Root>

    /** `NewMulti` copies the caller's list: later changes to that list do not reach the verifier. */
    constructor (src: array<Root>)
      ensures v == src[..]
    {
      v := src[..];
    }

    /** The nested loops with their early break compute the filter-map; no error is ever returned. */
    method Verify(check: Check, bundles: seq<Bundle>, h: Digest) returns (res: seq<Verified>)
      ensures res == FilterMap(check, v, bundles, h)
    {
      res := [];
      for i := 0 to |bundles|
        invariant res == FilterMap(check, v, bundles[..i], h)
      {
        assert bundles[..i + 1][..i] == bundles[..i];
        ghost var before := res;
        var j := 0;
        while j < |v|
          invariant j <= |v| && res == before
          invariant FirstAccepting(check, v, bundles[i], h) == FirstAccepting(check, v[j..], bundles[i], h)
        {
          assert v[j..][0] == v[j] && v[j..][1..] == v[j + 1..];
          var r := check(v[j], bundles[i], h);
          if r.Some? {
            res := res + [r.value];
            break;
          }
          j := j + 1;
        }
      }
      assert bundles[..|bundles|] == bundles;
    }
  }

  /** `Verifier.Verify`: the results of the bundles one root accepts. */
  method VerifyWithOneRoot(check: Check, root: Root, bundles: seq<Bundle>, h: Digest) returns (res: seq<Verified>)
    ensures res == FilterMap(check, [root], bundles, h)
  {
    res := [];
    for i := 0 to |bundles|
      invariant res == FilterMap(check, [root], bundles[..i], h)
    {
      assert bundles[..i + 1][..i] == bundles[..i];
      assert FirstAccepting(check, [root], bundles[i], h) == check(root, bundles[i], h);
      var r := check(root, bundles[i], h);
      if r.Some? {
        res := res + [r.value];
      }
    }
    assert bundles[..|bundles|] == bundles;
  }

  predicate Accepted(check: Check, roots: seq<Root>, b: Bundle, d: Digest) {
    exists i :: 0 <= i < |roots| && check(roots[i], b, d).Some?
  }

  /** The first accepting root: it accepts, and no root before it does. */
  lemma {:induction false} FirstAcceptingMeaning(check: Check, roots: seq<Root>, b: Bundle, d: Digest)
    ensures FirstAccepting(check, roots, b, d).Some? <==> Accepted(check, roots, b, d)
    ensures FirstAccepting(check, roots, b, d).Some? ==>
              exists i :: 0 <= i < |roots| && check(roots[i], b, d) == FirstAccepting(check, roots, b, d)
                          && forall j :: 0 <= j < i ==> check(roots[j], b, d).None?
  {
    if roots != [] {
      if check(roots[0], b, d).None? {
        var rest := roots[1..];
        FirstAcceptingMeaning(check, rest, b, d);
        assert forall k :: 1 <= k < |roots| ==> roots[k] == rest[k - 1];
        if FirstAccepting(check, rest, b, d).Some? {
          var i :| 0 <= i < |rest| && check(rest[i], b, d) == FirstAccepting(check, rest, b, d)
                   && forall j :: 0 <= j < i ==> check(rest[j], b, d).None?;
          assert check(roots[i + 1], b, d) == FirstAccepting(check, roots, b, d);
          assert forall j :: 0 <= j < i + 1 ==> check(roots[j], b, d).None?;
        }
      } else {
        assert check(roots[0], b, d) == FirstAccepting(check, roots, b, d);
      }
    }
  }

  /** Roots appended at the end take over only where none accepted before. */
  lemma {:induction false} FirstAcceptingOfAppend(check: Check, roots: seq<Root>, more: seq<Root>, b: Bundle, d: Digest)
    ensures FirstAccepting(check, roots + more, b, d) ==
            if FirstAccepting(check, roots, b, d).Some? then FirstAccepting(check, roots, b, d)
            else FirstAccepting(check, more, b, d)
  {
    if roots == [] {
      assert roots + more == more;
    } else {
      assert (roots + more)[1..] == roots[1..] + more;
      FirstAcceptingOfAppend(check, roots[1..], more, b, d);
    }
  }

  /** The results of two lists of bundles follow each other. */
  lemma {:induction false} ResultsInOrder(check: Check, roots: seq<Root>, a: seq<Bundle>, b: seq<Bundle>, d: Digest)
    ensures FilterMap(check, roots, a + b, d) == FilterMap(check, roots, a, d) + FilterMap(check, roots, b, d)
  {
    if b == [] {
      assert a + b == a;
    } else {
      assert (a + b)[..|a + b| - 1] == a + b[..|b| - 1];
      ResultsInOrder(check, roots, a, b[..|b| - 1], d);
    }
  }

  /** A single bundle gives the first accepting root's verdict, or nothing. */
  lemma ResultOfOne(check: Check, roots: seq<Root>, b: Bundle, d: Digest)
    ensures var v := FirstAccepting(check, roots, b, d);
            FilterMap(check, roots, [b], d) == if v.Some? then [v.value] else []
  {
    assert [b][..0] == [];
  }

  function AcceptedCount(check: Check, roots: seq<Root>, bs: seq<Bundle>, d: Digest): nat {
    if bs == [] then 0
    else
      AcceptedCount(check, roots, bs[..|bs| - 1], d) + if Accepted(check, roots, bs[|bs| - 1], d) then 1 else 0
  }

  /** As many results as accepted bundles, hence never more than bundles, and some exactly when one is accepted. */
  lemma {:induction false} ResultCount(check: Check, roots: seq<Root>, bs: seq<Bundle>, d: Digest)
    ensures |FilterMap(check, roots, bs, d)| == AcceptedCount(check, roots, bs, d) <= |bs|
    ensures FilterMap(check, roots, bs, d) != [] <==> exists i :: 0 <= i < |bs| && Accepted(check, roots, bs[i], d)
  {
    if bs != [] {
      var init, last := bs[..|bs| - 1], bs[|bs| - 1];
      ResultCount(check, roots, init, d);
      FirstAcceptingMeaning(check, roots, last, d);
      assert forall i :: 0 <= i < |init| ==> bs[i] == init[i];
      if FilterMap(check, roots, init, d) != [] {
        var i :| 0 <= i < |init| && Accepted(check, roots, init[i], d);
        assert Accepted(check, roots, bs[i], d);
      }
    }
  }

  /** Every result is the first accepting root's verdict on one of the bundles, and every such verdict is a result. */
  lemma {:induction false} ResultMembers(check: Check, roots: seq<Root>, bs: seq<Bundle>, d: Digest, v: Verified)
    ensures v in FilterMap(check, roots, bs, d) <==>
            exists i :: 0 <= i < |bs| && FirstAccepting(check, roots, bs[i], d) == Some(v)
  {
    if bs != [] {
      var init, last := bs[..|bs| - 1], bs[|bs| - 1];
      ResultMembers(check, roots, init, d, v);
      assert forall i :: 0 <= i < |init| ==> bs[i] == init[i];
      if v in FilterMap(check, roots, init, d) {
        var i :| 0 <= i < |init| && FirstAccepting(check, roots, init[i], d) == Some(v);
        assert FirstAccepting(check, roots, bs[i], d) == Some(v);
      }
    }
  }

  /** The number of results does not depend on the order of the roots, nor on their repetition. */
  lemma {:induction false} RootOrderIrrelevantForCount(check: Check, roots: seq<Root>, other: seq<Root>,
                                                       bs: seq<Bundle>, d: Digest)
    requires forall r :: r in roots <==> r in other
    ensures |FilterMap(check, roots, bs, d)| == |FilterMap(check, other, bs, d)|
  {
    if bs != [] {
      var init, last := bs[..|bs| - 1], bs[|bs| - 1];
      RootOrderIrrelevantForCount(check, roots, other, init, d);
      FirstAcceptingMeaning(check, roots, last, d);
      FirstAcceptingMeaning(check, other, last, d);
      SameRootsAcceptTheSame(check, roots, other, last, d);
      SameRootsAcceptTheSame(check, other, roots, last, d);
    }
  }

  lemma SameRootsAcceptTheSame(check: Check, roots: seq<Root>, other: seq<Root>, b: Bundle, d: Digest)
    requires forall r :: r in roots ==> r in other
    ensures Accepted(check, roots, b, d) ==> Accepted(check, other, b, d)
  {
    if Accepted(check, roots, b, d) {
      var i :| 0 <= i < |roots| && check(roots[i], b, d).Some?;
      assert roots[i] in other;
      var j :| 0 <= j < |other| && other[j] == roots[i];
    }
  }

  /** The bundles some root accepts, in order. */
  function AcceptedBundles(check: Check, roots: seq<Root>, bs: seq<Bundle>, d: Digest): seq<Bundle> {
    if bs == [] then []
    else
      AcceptedBundles(check, roots, bs[..|bs| - 1], d)
      + if Accepted(check, roots, bs[|bs| - 1], d) then [bs[|bs| - 1]] else []
  }

  /** Appending trust roots changes no verdict a bundle already had: over the bundles accepted before, the longer list
      of roots gives exactly the results it gave before. */
  lemma {:induction false} AppendingRootsKeepsResults(check: Check, roots: seq<Root>, more: seq<Root>, bs: seq<Bundle>,
                                                      d: Digest)
    ensures FilterMap(check, roots + more, AcceptedBundles(check, roots, bs, d), d) == FilterMap(check, roots, bs, d)
  {
    if bs != [] {
      var init, last := bs[..|bs| - 1], bs[|bs| - 1];
      var kept := AcceptedBundles(check, roots, init, d);
      AppendingRootsKeepsResults(check, roots, more, init, d);
      FirstAcceptingMeaning(check, roots, last, d);
      FirstAcceptingOfAppend(check, roots, more, last, d);
      if Accepted(check, roots, last, d) {
        assert (kept + [last])[..|kept|] == kept;
      } else {
        assert kept + [] == kept;
      }
    }
  }
}

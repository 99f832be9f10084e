/** The keychain cache: one build at start, then a rebuild at each tick, adopted only when it is complete. */
module Keychain {
  import opened Common

  /** A source of registry credentials. */
  datatype Authenticator = Default | Kubernetes(id: nat) | Cloud(id: nat)

  /** A keychain tries its authenticators in order. */
  type Chain = seq<Authenticator>

  const DEFAULT_CHAIN: Chain := [Default]

  /** What a build returns: a keychain or nil, and whether every authenticator could be built. */
  datatype Build = Build(chain: Option<Chain>, ok: bool)
  {
    predicate Adopted() {
      ok && chain.Some?
    }
  }

  /** The branch each `select` of the loop takes. */
  datatype Signal = Cancelled | Tick(build: Build)

  /** `buildKeychain`, given what the two in-cluster constructors return. */
  method BuildKeychain(kubernetes: Option<Authenticator>, cloud: Option<Authenticator>) returns (b: Build)
    ensures b.chain.Some? && DEFAULT_CHAIN <= b.chain.value
    ensures b.Adopted() <==> kubernetes.Some? && cloud.Some?
    ensures b.Adopted() ==> b.chain.value == [Default, kubernetes.value, cloud.value]
    ensures forall a :: a in b.chain.value <==> a == Default || Some(a) == kubernetes || Some(a) == cloud
  {
    var chain := DEFAULT_CHAIN;
    var ok := true;
    if kubernetes.None? {
      ok := false;
    } else {
      chain := chain + [kubernetes.value];
    }
    if cloud.None? {
      ok := false;
    } else {
      chain := chain + [cloud.value];
    }
    b := Build(Some(chain), ok);
  }

  function AdoptedCount(bs: seq<Build>): (n: nat)
    ensures n <= |bs|
  {
    if bs == [] then 0 else AdoptedCount(bs[..|bs| - 1]) + if bs[|bs| - 1].ok && bs[|bs| - 1].chain.Some? then 1 else 0
  }

  /** The chain is the one of the latest adopted build. */
  predicate LatestAdopted(bs: seq<Build>, chain: Chain) {
    exists i :: 0 <= i < |bs| && bs[i].ok && bs[i].chain == Some(chain)
                && forall k :: i < k < |bs| ==> !bs[k].ok || bs[k].chain.None?
  }

  predicate SomeAdopted(bs: seq<Build>) {
    exists i :: 0 <= i < |bs| && bs[i].ok && bs[i].chain.Some?
  }

  lemma AdoptionOfSnoc(bs: seq<Build>, b: Build, chain: Chain)
    ensures SomeAdopted(bs + [b]) <==> SomeAdopted(bs) || b.Adopted()
    ensures LatestAdopted(bs + [b], chain) <==> if b.Adopted() then b.chain == Some(chain) else LatestAdopted(bs, chain)
  {
    var s := bs + [b];
    assert s[|bs|] == b;
    assert forall i :: 0 <= i < |bs| ==> s[i] == bs[i];
  }

  /** The last-good rule: the latest adopted rebuild, else the initial build, else the default. */
  predicate LastGood(initial: Option<Build>, handled: seq<Build>, served: Chain) {
    if SomeAdopted(handled) then LatestAdopted(handled, served)
    else if initial.Some? && initial.value.chain.Some? then served == initial.value.chain.value
    else served == DEFAULT_CHAIN
  }

  /** The snapshot the cache holds: nil before the start, and then a keychain that may itself be nil. */
  function CacheAfter(initial: Option<Build>, handled: seq<Build>): Option<Option<Chain>> {
    if handled == [] then (if initial.None? then None else Some(initial.value.chain))
    else if handled[|handled| - 1].Adopted() then Some(handled[|handled| - 1].chain)
    else CacheAfter(initial, handled[..|handled| - 1])
  }

  function Served(cached: Option<Option<Chain>>): Chain {
    if cached.None? || cached.value.None? then DEFAULT_CHAIN else cached.value.value
  }

  /** In every run the cache serves the last good keychain. */
  lemma {:induction false} ServedIsLastGood(initial: Option<Build>, handled: seq<Build>)
    ensures LastGood(initial, handled, Served(CacheAfter(initial, handled)))
  {
    if handled != [] {
      var init, last := handled[..|handled| - 1], handled[|handled| - 1];
      ServedIsLastGood(initial, init);
      assert handled == init + [last];
      AdoptionOfSnoc(init, last, Served(CacheAfter(initial, handled)));
    }
  }

  /** The rule leaves no choice: only one chain is the last good one. */
  lemma LastGoodIsUnique(initial: Option<Build>, handled: seq<Build>, a: Chain, b: Chain)
    requires LastGood(initial, handled, a) && LastGood(initial, handled, b)
    ensures a == b
  {
  }

  /** A rebuild that is not adopted changes nothing that is served, however many there are. */
  lemma {:induction false} DegradedBuildsChangeNothing(initial: Option<Build>, handled: seq<Build>,
                                                       degraded: seq<Build>)
    requires forall i :: 0 <= i < |degraded| ==> !degraded[i].Adopted()
    ensures CacheAfter(initial, handled + degraded) == CacheAfter(initial, handled)
    ensures AdoptedCount(handled + degraded) == AdoptedCount(handled)
  {
    if degraded == [] {
      assert handled + degraded == handled;
    } else {
      var init := degraded[..|degraded| - 1];
      DegradedBuildsChangeNothing(initial, handled, init);
      assert (handled + degraded)[..|handled + init|] == handled + init;
      assert !degraded[|degraded| - 1].Adopted();
    }
  }

  /** Once a complete keychain is served, every later one is complete too: the chain comes from an adopted build. */
  lemma NeverFallsBack(initial: Option<Build>, before: seq<Build>, after: seq<Build>, i: nat)
    requires i < |before| && before[i].Adopted()
    ensures LatestAdopted(before + after, Served(CacheAfter(initial, before + after)))
  {
    ServedIsLastGood(initial, before + after);
    assert (before + after)[i] == before[i];
  }

  /** The builds handled before the first cancellation. */
  function Handled(signals: seq<Signal>): seq<Build> {
    if signals == [] || signals[0].Cancelled? then [] else [signals[0].build] + Handled(signals[1..])
  }

  /** The builds handled are those of the ticks before the first cancellation, in order. */
  lemma {:induction false} HandledMeaning(signals: seq<Signal>)
    ensures var h := Handled(signals);
            && |h| <= |signals| && (forall i :: 0 <= i < |h| ==> signals[i] == Tick(h[i]))
            && (|h| < |signals| ==> signals[|h|] == Cancelled)
  {
    if signals != [] && signals[0].Tick? {
      HandledMeaning(signals[1..]);
      assert forall i :: 1 <= i < |signals| ==> signals[i] == signals[1..][i - 1];
    }
  }

  class KeyChainProvider {
    /** Nil, or a snapshot whose keychain may be nil. */
    var cached: Option<Option<Chain>>
    ghost var initial: Option<Build>
    ghost var handled: seq<Build>

    ghost predicate Valid()
      reads this
    {
      cached == CacheAfter(initial, handled)
    }

    constructor ()
      ensures Valid() && initial == None && handled == []
    {
      cached, initial, handled := None, None, [];
    }

    method Set(chain: Option<Chain>)
      modifies this`cached
      ensures cached == Some(chain)
    {
      cached := Some(chain);
    }

    /** The synchronous part of `Start`: the initial build is cached even if it is degraded. */
    method Start(build: Build)
      requires Valid() && initial == None && handled == []
      modifies this
      ensures Valid() && initial == Some(build) && handled == []
    {
      Set(build.chain);
      initial := Some(build);
    }

    /** `refreshLoop` over the branches its `select` takes. The failure counter grows by the ticks handled less the
        builds adopted. */
    method RefreshLoop(signals: seq<Signal>, fails: Counter)
      requires Valid()
      modifies this, fails
      ensures Valid() && initial == old(initial)
      ensures handled == old(handled) + Handled(signals)
      ensures fails.value + AdoptedCount(Handled(signals)) == old(fails.value) + |Handled(signals)|
    {
      var i := 0;
      ghost var seen: seq<Build> := [];
      while i < |signals|
        invariant 0 <= i <= |signals|
        invariant Valid() && initial == old(initial)
        invariant handled == old(handled) + seen
        invariant Handled(signals) == seen + Handled(signals[i..])
        invariant fails.value + AdoptedCount(seen) == old(fails.value) + |seen|
      {
        if signals[i].Cancelled? {
          assert seen == Handled(signals) by { Ended(seen, signals[i..]); }
          return;
        }
        var build := signals[i].build;
        OneMoreBuild(initial, handled, build);
        OneMoreBuild(initial, seen, build);
        Appended(seen, signals, i);
        seen := seen + [build];
        handled := handled + [build];
        i := i + 1;
        if build.Adopted() {
          Set(build.chain);
        } else {
          fails.value := fails.value + 1;
        }
      }
      assert seen == Handled(signals) by { Ended(seen, signals[i..]); }
    }

    /** `KeyChain`: never an error, always the last good keychain. */
    method KeyChain() returns (chain: Chain)
      requires Valid()
      ensures LastGood(initial, handled, chain)
      ensures forall other :: LastGood(initial, handled, other) ==> other == chain
    {
      ServedIsLastGood(initial, handled);
      forall other | LastGood(initial, handled, other) ensures other == Served(cached) {
        LastGoodIsUnique(initial, handled, other, Served(cached));
      }
      if cached.None? || cached.value.None? {
        chain := DEFAULT_CHAIN;
      } else {
        chain := cached.value.value;
      }
    }
  }

  lemma OneMoreBuild(initial: Option<Build>, bs: seq<Build>, b: Build)
    ensures CacheAfter(initial, bs + [b]) == if b.Adopted() then Some(b.chain) else CacheAfter(initial, bs)
    ensures AdoptedCount(bs + [b]) == AdoptedCount(bs) + if b.Adopted() then 1 else 0
  {
    assert (bs + [b])[..|bs|] == bs;
  }

  lemma Appended(seen: seq<Build>, signals: seq<Signal>, i: nat)
    requires i < |signals| && signals[i].Tick?
    ensures seen + Handled(signals[i..]) == seen + [signals[i].build] + Handled(signals[i + 1..])
  {
    assert signals[i..][1..] == signals[i + 1..];
  }

  lemma Ended(seen: seq<Build>, rest: seq<Signal>)
    requires rest == [] || rest[0].Cancelled?
    ensures seen + Handled(rest) == seen
  {
  }
}

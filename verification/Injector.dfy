/** The reconciler of one replica: `UpdateCABundle`, `refreshLoop` and `Start` against the Provider
    object, and the law that collapses a whole run of refreshes into a single merge. */
module Injector {
  import opened Common
  import opened Certificates
  import opened Merging

  /** What happens to the update request: applied and answered, applied with the answer lost, or not applied. */
  datatype UpdateReply = Applied | AppliedAnswerLost | NotApplied

  /** What the environment does during one refresh: the GET, the mounted file, the clock read in the
      merge, the update request, and whether the propagation wait runs to its end. */
  datatype Refresh = Refresh(
    getOk: bool, mounted: Option<Bytes>, now: int, reply: UpdateReply, waitCompletes: bool)

  datatype Outcome =
    | GetFailed | ReadFailed | MergeFailed(why: MergeError) | UpToDate
    | UpdateFailed | WaitInterrupted | Updated
  {
    predicate IsError() {
      this != UpToDate && this != Updated
    }
  }

  /** The stored bundle after one refresh, and what the refresh returns. */
  function RefreshOnce(lib: Library, stored: string, r: Refresh): (string, Outcome)
    requires lib.Lawful()
  {
    if !r.getOk then (stored, GetFailed)
    else if r.mounted.None? then (stored, ReadFailed)
    else match Merge(lib, r.now, stored, r.mounted.value)
      case Rejected(why) => (stored, MergeFailed(why))
      case Merged(bundle) =>
        if bundle == stored then (stored, UpToDate)
        else match r.reply
          case NotApplied => (stored, UpdateFailed)
          case AppliedAnswerLost => (bundle, UpdateFailed)
          case Applied => (bundle, if r.waitCompletes then Updated else WaitInterrupted)
  }

  /** The refresh wrote its merge, or found it already stored. */
  predicate Took(lib: Library, stored: string, r: Refresh)
    requires lib.Lawful()
  {
    && r.getOk && r.mounted.Some?
    && var m := Merge(lib, r.now, stored, r.mounted.value);
    && m.Merged? && (m.bundle == stored || r.reply != NotApplied)
  }

  /** The refresh was refused because everything it held had expired. */
  predicate FoundNothing(lib: Library, stored: string, r: Refresh)
    requires lib.Lawful()
  {
    r.getOk && r.mounted.Some? && Merge(lib, r.now, stored, r.mounted.value) == Rejected(NothingLeft)
  }

  /** What a refresh returns, case by case. */
  lemma RefreshOutcomeIff(lib: Library, stored: string, r: Refresh)
    requires lib.Lawful()
    ensures var o := RefreshOnce(lib, stored, r).1;
            && (o == GetFailed <==> !r.getOk)
            && (o == ReadFailed <==> r.getOk && r.mounted.None?)
            && (r.getOk && r.mounted.Some? ==>
                  var m := Merge(lib, r.now, stored, r.mounted.value);
                  && (forall why :: o == MergeFailed(why) <==> m == Rejected(why))
                  && (o == UpToDate <==> m == Merged(stored))
                  && (m.Merged? && m.bundle != stored ==>
                        && (o == UpdateFailed <==> r.reply != Applied)
                        && (o == WaitInterrupted <==> r.reply == Applied && !r.waitCompletes)
                        && (o == Updated <==> r.reply == Applied && r.waitCompletes)))
  {
  }

  /** A refresh succeeds exactly when object, file and merge are fine and the merge is stored already, or is written,
      acknowledged and waited for; an error after an applied write leaves the write in place. */
  lemma RefreshSucceedsIff(lib: Library, stored: string, r: Refresh)
    requires lib.Lawful()
    ensures var (after, o) := RefreshOnce(lib, stored, r);
            && (!o.IsError() <==>
                && r.getOk && r.mounted.Some?
                && var m := Merge(lib, r.now, stored, r.mounted.value);
                m.Merged? && (m.bundle == stored || (r.reply == Applied && r.waitCompletes)))
            && (after != stored <==>
                && r.getOk && r.mounted.Some? && r.reply != NotApplied
                && var m := Merge(lib, r.now, stored, r.mounted.value); m.Merged? && m.bundle != stored)
            && (after != stored ==> Merge(lib, r.now, stored, r.mounted.value) == Merged(after))
  {
    RefreshOutcomeIff(lib, stored, r);
  }

  /** The Provider object held by the API server. */
  class ProviderObject {
    var caBundle: string
    var version: nat

    constructor (bundle: string)
      ensures caBundle == bundle && version == 0
    {
      caBundle, version := bundle, 0;
    }

    /** `Update` is a compare-and-swap on the version carried by the fetched object. */
    method Update(seen: nat, bundle: string, reply: UpdateReply) returns (ok: bool)
      modifies this
      ensures ok <==> seen == old(version) && reply == Applied
      ensures seen == old(version) && reply != NotApplied ==> caBundle == bundle && version == old(version) + 1
      ensures seen != old(version) || reply == NotApplied ==> caBundle == old(caBundle) && version == old(version)
    {
      if seen == version && reply != NotApplied {
        caBundle := bundle;
        version := version + 1;
        return reply == Applied;
      }
      return false;
    }
  }

  method UpdateCABundle(lib: Library, provider: ProviderObject, r: Refresh) returns (outcome: Outcome)
    requires lib.Lawful()
    modifies provider
    ensures (provider.caBundle, outcome) == RefreshOnce(lib, old(provider.caBundle), r)
  {
    if !r.getOk {
      return GetFailed;
    }
    var fetched, seen := provider.caBundle, provider.version;
    if r.mounted.None? {
      return ReadFailed;
    }
    var merged := MergeAndEncode(lib, r.now, fetched, r.mounted.value);
    if merged.Rejected? {
      return MergeFailed(merged.why);
    }
    if fetched == merged.bundle {
      return UpToDate;
    }
    var ok := provider.Update(seen, merged.bundle, r.reply);
    if !ok {
      return UpdateFailed;
    }
    if !r.waitCompletes {
      return WaitInterrupted;
    }
    return Updated;
  }

  /** The stored bundle after a sequence of refreshes by a single writer. */
  function Run(lib: Library, stored: string, rs: seq<Refresh>): string
    requires lib.Lawful()
  {
    if rs == [] then stored
    else RefreshOnce(lib, Run(lib, stored, rs[..|rs| - 1]), rs[|rs| - 1]).0
  }

  /** A tick of the refresh loop; `shutdown` is what `ctx.Err()` answers when the refresh fails. */
  datatype Tick = Tick(refresh: Refresh, shutdown: bool)

  function Refreshes(ticks: seq<Tick>): seq<Refresh> {
    if ticks == [] then [] else Refreshes(ticks[..|ticks| - 1]) + [ticks[|ticks| - 1].refresh]
  }

  /** The number of failed refreshes among the first ones, as the failure counter counts them. */
  function Failures(lib: Library, stored: string, rs: seq<Refresh>): nat
    requires lib.Lawful()
  {
    if rs == [] then 0
    else
      var init := rs[..|rs| - 1];
      Failures(lib, stored, init)
      + if RefreshOnce(lib, Run(lib, stored, init), rs[|rs| - 1]).1.IsError() then 1 else 0
  }

  /** The refresh of tick `k` fails while the process is shutting down. */
  predicate EndsLoop(lib: Library, stored: string, ticks: seq<Tick>, k: nat)
    requires lib.Lawful() && k < |ticks|
  {
    ticks[k].shutdown && RefreshOnce(lib, Run(lib, stored, Refreshes(ticks[..k])), ticks[k].refresh).1.IsError()
  }

  /** The loop over `ticks` from `stored` ends after `handled` of them: at the first refresh that fails during shutdown,
      or when `ctx.Done()` is chosen after the last tick. */
  ghost predicate LoopEnds(lib: Library, stored: string, ticks: seq<Tick>, handled: nat, stopped: bool)
    requires lib.Lawful()
  {
    && handled <= |ticks| && (!stopped ==> handled == |ticks|)
    && (forall k :: 0 <= k < handled - 1 ==> !EndsLoop(lib, stored, ticks, k))
    && (stopped <==> handled > 0 && EndsLoop(lib, stored, ticks, handled - 1))
  }

  lemma OneMoreTick(lib: Library, stored: string, ticks: seq<Tick>, k: nat)
    requires lib.Lawful() && k < |ticks|
    ensures var rs, next := Refreshes(ticks[..k]), ticks[k].refresh;
            && Refreshes(ticks[..k + 1]) == rs + [next]
            && Run(lib, stored, rs + [next]) == RefreshOnce(lib, Run(lib, stored, rs), next).0
            && Failures(lib, stored, rs + [next]) == Failures(lib, stored, rs)
               + if RefreshOnce(lib, Run(lib, stored, rs), next).1.IsError() then 1 else 0
  {
    var rs := Refreshes(ticks[..k]);
    assert ticks[..k + 1][..k] == ticks[..k];
    assert (rs + [ticks[k].refresh])[..|rs|] == rs;
  }

  /** `refreshLoop` over the ticks it receives before `ctx.Done()` is chosen: it handles a prefix of them,
      stopping early only at a refresh that failed during shutdown, which is not counted. */
  method RefreshLoop(lib: Library, provider: ProviderObject, fails: Counter, ticks: seq<Tick>)
    returns (handled: nat, stopped: bool)
    requires lib.Lawful()
    modifies provider, fails
    ensures LoopEnds(lib, old(provider.caBundle), ticks, handled, stopped)
    ensures provider.caBundle == Run(lib, old(provider.caBundle), Refreshes(ticks[..handled]))
    ensures fails.value + (if stopped then 1 else 0) ==
            old(fails.value) + Failures(lib, old(provider.caBundle), Refreshes(ticks[..handled]))
  {
    handled, stopped := 0, false;
    ghost var stored := provider.caBundle;
    while handled < |ticks|
      invariant handled <= |ticks| && fails.value >= old(fails.value)
      invariant Running(lib, stored, ticks, handled, provider.caBundle, fails.value - old(fails.value))
    {
      var tick := ticks[handled];
      RunningStep(lib, stored, ticks, handled, provider.caBundle, fails.value - old(fails.value));
      var outcome := UpdateCABundle(lib, provider, tick.refresh);
      handled := handled + 1;
      if outcome.IsError() {
        if tick.shutdown {
          stopped := true;
          return;
        }
        fails.value := fails.value + 1;
      }
    }
  }

  /** The loop has handled the first `k` ticks: what is stored, what was counted, and no reason to end so far. */
  ghost predicate Running(lib: Library, stored: string, ticks: seq<Tick>, k: nat, bundle: string, failed: int)
    requires lib.Lawful() && k <= |ticks|
  {
    && bundle == Run(lib, stored, Refreshes(ticks[..k]))
    && failed == Failures(lib, stored, Refreshes(ticks[..k]))
    && forall j :: 0 <= j < k ==> !EndsLoop(lib, stored, ticks, j)
  }

  lemma RunningStep(lib: Library, stored: string, ticks: seq<Tick>, k: nat, bundle: string, failed: int)
    requires lib.Lawful() && k < |ticks| && Running(lib, stored, ticks, k, bundle, failed)
    ensures var (bundle', outcome) := RefreshOnce(lib, bundle, ticks[k].refresh);
            if outcome.IsError() && ticks[k].shutdown then
              && LoopEnds(lib, stored, ticks, k + 1, true)
              && bundle' == Run(lib, stored, Refreshes(ticks[..k + 1]))
              && failed + 1 == Failures(lib, stored, Refreshes(ticks[..k + 1]))
            else Running(lib, stored, ticks, k + 1, bundle', if outcome.IsError() then failed + 1 else failed)
  {
    OneMoreTick(lib, stored, ticks, k);
  }

  /** `Start`: a non-positive interval is an error, and so is a failed first refresh; otherwise the loop runs. */
  method Start(lib: Library, provider: ProviderObject, fails: Counter, interval: int, first: Refresh, ticks: seq<Tick>)
    returns (started: bool, handled: nat, stopped: bool)
    requires lib.Lawful()
    modifies provider, fails
    ensures started <==> interval > 0 && !RefreshOnce(lib, old(provider.caBundle), first).1.IsError()
    ensures handled <= |ticks| && (!started ==> handled == 0 && !stopped)
    ensures var before := old(provider.caBundle);
            var stored := if interval <= 0 then before else RefreshOnce(lib, before, first).0;
            && (started ==> LoopEnds(lib, stored, ticks, handled, stopped))
            && provider.caBundle == Run(lib, stored, Refreshes(ticks[..handled]))
            && fails.value + (if stopped then 1 else 0) ==
               old(fails.value) + Failures(lib, stored, Refreshes(ticks[..handled]))
  {
    started, handled, stopped := false, 0, false;
    if interval <= 0 {
      return;
    }
    var outcome := UpdateCABundle(lib, provider, first);
    if outcome.IsError() {
      return;
    }
    started := true;
    handled, stopped := RefreshLoop(lib, provider, fails, ticks);
  }

  // ---- Run collapse ----

  predicate ClockNeverGoesBack(rs: seq<Refresh>) {
    forall i, j :: 0 <= i < j < |rs| ==> rs[i].now <= rs[j].now
  }

  /** The certificates of every file whose refresh took effect, in order; with `andRefused` also those of
      the refreshes refused as empty. */
  function Collected(lib: Library, stored: string, rs: seq<Refresh>, andRefused: bool): (certs: seq<Cert>)
    requires lib.Lawful()
    ensures lib.Genuine(certs)
  {
    if rs == [] then []
    else
      var init, last := rs[..|rs| - 1], rs[|rs| - 1];
      var s := Run(lib, stored, init);
      Collected(lib, stored, init, andRefused)
      + if Took(lib, s, last) || (andRefused && FoundNothing(lib, s, last))
        then lib.Parse(last.mounted.value).value else []
  }

  /** The clock of the last refresh that took effect. */
  function LastTaken(lib: Library, stored: string, rs: seq<Refresh>): Option<int>
    requires lib.Lawful()
  {
    if rs == [] then None
    else
      var init, last := rs[..|rs| - 1], rs[|rs| - 1];
      if Took(lib, Run(lib, stored, init), last) then Some(last.now) else LastTaken(lib, stored, init)
  }

  lemma {:induction false} LastTakenIsAClock(lib: Library, stored: string, rs: seq<Refresh>, bound: int)
    requires lib.Lawful()
    requires forall r :: r in rs ==> r.now <= bound
    ensures LastTaken(lib, stored, rs).Some? ==> LastTaken(lib, stored, rs).value <= bound
  {
    if rs != [] {
      LastTakenIsAClock(lib, stored, rs[..|rs| - 1], bound);
    }
  }

  lemma EffectOfRefresh(lib: Library, stored: string, r: Refresh)
    requires lib.Lawful()
    ensures Took(lib, stored, r) ==>
              Merge(lib, r.now, stored, r.mounted.value) == Merged(RefreshOnce(lib, stored, r).0)
    ensures !Took(lib, stored, r) ==> RefreshOnce(lib, stored, r).0 == stored
  {
  }

  /** Merging onto an earlier selection is one selection at the later clock. */
  lemma MergeOntoSelection(lib: Library, t: int, now: int, base: seq<Cert>, mounted: Bytes)
    requires lib.Lawful() && lib.Genuine(base) && t <= now
    requires Merge(lib, now, lib.Render(Select(t, base)), mounted).Merged?
    ensures lib.Parse(mounted).Some?
    ensures var kept := Select(now, base + lib.Parse(mounted).value);
            kept != [] && Merge(lib, now, lib.Render(Select(t, base)), mounted) == Merged(lib.Render(kept))
  {
    SelectGenuine(lib, t, base);
    lib.StoredOfRender(Select(t, base));
    SelectOfSelect(t, now, base, lib.Parse(mounted).value);
  }

  /** The stored text after a run is the initial text, or one selection at the last effective clock over
      the initial certificates and everything collected since. */
  ghost predicate Collapsed(lib: Library, stored: string, rs: seq<Refresh>)
    requires lib.Lawful()
  {
    var c := Collected(lib, stored, rs, false);
    match LastTaken(lib, stored, rs)
    case None => Run(lib, stored, rs) == stored && c == []
    case Some(t) =>
      && lib.Stored(stored).Some?
      && Select(t, lib.Stored(stored).value + c) != []
      && Run(lib, stored, rs) == lib.Render(Select(t, lib.Stored(stored).value + c))
  }

  lemma ClockOfPrefix(rs: seq<Refresh>)
    requires rs != [] && ClockNeverGoesBack(rs)
    ensures ClockNeverGoesBack(rs[..|rs| - 1])
    ensures rs == rs[..|rs| - 1] + [rs[|rs| - 1]]
    ensures forall r :: r in rs[..|rs| - 1] ==> r.now <= rs[|rs| - 1].now
  {
  }

  lemma {:induction false} RunIsOneSelection(lib: Library, stored: string, rs: seq<Refresh>)
    requires lib.Lawful() && ClockNeverGoesBack(rs)
    ensures Collapsed(lib, stored, rs)
  {
    if rs != [] {
      var init, last := rs[..|rs| - 1], rs[|rs| - 1];
      ClockOfPrefix(rs);
      RunIsOneSelection(lib, stored, init);
      CollapseStep(lib, stored, init, last);
    }
  }

  lemma CollapseStep(lib: Library, stored: string, init: seq<Refresh>, last: Refresh)
    requires lib.Lawful() && forall r :: r in init ==> r.now <= last.now
    requires Collapsed(lib, stored, init)
    ensures Collapsed(lib, stored, init + [last])
  {
    var s := Run(lib, stored, init);
    var c := Collected(lib, stored, init, false);
    OneMoreRefresh(lib, stored, init, last);
    EffectOfRefresh(lib, s, last);
    if Took(lib, s, last) {
      if LastTaken(lib, stored, init).None? {
        FirstMerge(lib, last.now, stored, last.mounted.value);
      } else {
        LastTakenIsAClock(lib, stored, init, last.now);
        NextMerge(lib, LastTaken(lib, stored, init).value, last.now, lib.Stored(stored).value, c, last.mounted.value);
      }
    } else {
      assert c + [] == c;
    }
  }

  lemma FirstMerge(lib: Library, now: int, stored: string, mounted: Bytes)
    requires lib.Lawful()
    requires Merge(lib, now, stored, mounted).Merged?
    ensures lib.Stored(stored).Some? && lib.Parse(mounted).Some?
    ensures var kept := Select(now, lib.Stored(stored).value + ([] + lib.Parse(mounted).value));
            kept != [] && Merge(lib, now, stored, mounted) == Merged(lib.Render(kept))
  {
    assert [] + lib.Parse(mounted).value == lib.Parse(mounted).value;
  }

  lemma NextMerge(lib: Library, t: int, now: int, base: seq<Cert>, c: seq<Cert>, mounted: Bytes)
    requires lib.Lawful() && lib.Genuine(base + c) && t <= now
    requires Merge(lib, now, lib.Render(Select(t, base + c)), mounted).Merged?
    ensures lib.Parse(mounted).Some?
    ensures var kept := Select(now, base + (c + lib.Parse(mounted).value));
            kept != [] && Merge(lib, now, lib.Render(Select(t, base + c)), mounted) == Merged(lib.Render(kept))
  {
    MergeOntoSelection(lib, t, now, base + c, mounted);
    ConcatIsAssociative(base, c, lib.Parse(mounted).value);
  }

  lemma ConcatIsAssociative<T>(a: seq<T>, b: seq<T>, c: seq<T>)
    ensures a + b + c == a + (b + c)
  {
  }

  lemma OneMoreRefresh(lib: Library, stored: string, init: seq<Refresh>, last: Refresh)
    requires lib.Lawful()
    ensures var s, c := Run(lib, stored, init), Collected(lib, stored, init, false);
            && Run(lib, stored, init + [last]) == RefreshOnce(lib, s, last).0
            && LastTaken(lib, stored, init + [last]) ==
               (if Took(lib, s, last) then Some(last.now) else LastTaken(lib, stored, init))
            && Collected(lib, stored, init + [last], false) ==
               c + if Took(lib, s, last) then lib.Parse(last.mounted.value).value else []
  {
    assert (init + [last])[..|init|] == init;
  }

  /** Run collapse: for a single writer whose clock never goes back, after any refresh that took effect the
      stored bundle is one merge, at that clock, of the initial bundle with the in-order concatenation of
      every file whose refresh took effect. */
  lemma {:induction false} RunCollapse(lib: Library, stored: string, rs: seq<Refresh>)
    requires lib.Lawful() && ClockNeverGoesBack(rs)
    requires LastTaken(lib, stored, rs).Some?
    ensures Merge(lib, LastTaken(lib, stored, rs).value, stored,
                  lib.EncodeBlocks(Collected(lib, stored, rs, false))) == Merged(Run(lib, stored, rs))
  {
    RunIsOneSelection(lib, stored, rs);
    lib.ParseOfEncodeBlocks(Collected(lib, stored, rs, false));
  }

  /** At any clock at or after the run, the files of refused refreshes weigh nothing. */
  lemma {:induction false} RefusedFilesWeighNothing(lib: Library, stored: string, rs: seq<Refresh>, t: int)
    requires lib.Lawful() && lib.Stored(stored).Some?
    requires forall i :: 0 <= i < |rs| ==> rs[i].now <= t
    ensures Select(t, lib.Stored(stored).value + Collected(lib, stored, rs, true)) ==
            Select(t, lib.Stored(stored).value + Collected(lib, stored, rs, false))
  {
    if rs != [] {
      var init, last := rs[..|rs| - 1], rs[|rs| - 1];
      RefusedFilesWeighNothing(lib, stored, init, t);
      var s := Run(lib, stored, init);
      var base := lib.Stored(stored).value;
      var x, y := Collected(lib, stored, init, true), Collected(lib, stored, init, false);
      if Took(lib, s, last) {
        SelectAppendCongruence(t, base, x, y, lib.Parse(last.mounted.value).value);
      } else if FoundNothing(lib, s, last) {
        NothingLeftIff(lib, last.now, s, last.mounted.value);
        SelectAppendExpired(t, base, x, lib.Parse(last.mounted.value).value);
        assert y + [] == y;
      } else {
        assert x + [] == x && y + [] == y;
      }
    }
  }

  lemma SelectAppendCongruence(t: int, base: seq<Cert>, x: seq<Cert>, y: seq<Cert>, f: seq<Cert>)
    requires Select(t, base + x) == Select(t, base + y)
    ensures Select(t, base + (x + f)) == Select(t, base + (y + f))
  {
    SelectOfSelect(t, t, base + x, f);
    SelectOfSelect(t, t, base + y, f);
    ConcatIsAssociative(base, x, f);
    ConcatIsAssociative(base, y, f);
  }

  lemma SelectAppendExpired(t: int, base: seq<Cert>, x: seq<Cert>, f: seq<Cert>)
    requires forall c :: c in f ==> c.notAfter < t
    ensures Select(t, base + (x + f)) == Select(t, base + x)
  {
    LiveOfConcat(t, base + x, f);
    LiveOfExpiredOnly(t, f);
    assert base + x + f == base + (x + f);
    assert Live(t, base + x) + [] == Live(t, base + x);
  }

  /** Run collapse with the refused refreshes counted in: right after a refresh that took effect, adding the
      files of the refreshes refused as empty changes nothing, since all they held had expired. */
  lemma {:induction false} RunCollapseWithRefused(lib: Library, stored: string, rs: seq<Refresh>)
    requires lib.Lawful() && ClockNeverGoesBack(rs)
    requires rs != [] && Took(lib, Run(lib, stored, rs[..|rs| - 1]), rs[|rs| - 1])
    ensures Merge(lib, rs[|rs| - 1].now, stored,
                  lib.EncodeBlocks(Collected(lib, stored, rs, true))) == Merged(Run(lib, stored, rs))
  {
    RunIsOneSelection(lib, stored, rs);
    RefusedFilesWeighNothing(lib, stored, rs, rs[|rs| - 1].now);
    lib.ParseOfEncodeBlocks(Collected(lib, stored, rs, true));
  }
}

/** Any number of replicas refreshing one Provider object, their steps interleaved in any order. Each
    step is one interaction of `UpdateCABundle` with the outside; the update request is a
    compare-and-swap on the version the replica fetched. Every replica reads its own clock, with no
    relation between clocks. */
module Replicas {
  import opened Common
  import opened Certificates
  import opened Merging
  import Injector

  datatype Phase =
    | Idle
    | Fetched(base: string, version: nat)
    | Ready(base: string, version: nat, next: string, now: int, file: Bytes, mounted: seq<Cert>)
    | Waiting

  /** A refresh that took effect: who, at which clock, which mounted file and certificates, and whether it wrote or
      found its merge already stored. */
  datatype Entry = Entry(replica: nat, now: int, file: Bytes, mounted: seq<Cert>, wrote: bool)

  /** The shared object, where each replica is, and the history of effective refreshes. */
  datatype System = System(bundle: string, version: nat, phases: map<nat, Phase>, log: seq<Entry>) {
    function At(r: nat): Phase {
      if r in phases then phases[r] else Idle
    }

    function Move(r: nat, p: Phase): System {
      this.(phases := phases[r := p])
    }
  }

  datatype Fate = Answered | AnswerLost | NeverArrived

  datatype Action =
    | Get(r: nat)
    | MergeLocally(r: nat, file: Bytes, now: int)
    | Send(r: nat, fate: Fate)
    | WakeUp(r: nat)      // the propagation wait ends, by its timer or by cancellation
    | GiveUp(r: nat)      // any error: a failed GET or read, a cancelled context
    | Touch               // somebody else updates another field of the object

  /** The update request of replica `r` would be applied now. */
  predicate Applies(s: System, r: nat, fate: Fate) {
    s.At(r).Ready? && fate != NeverArrived && s.At(r).version == s.version
  }

  function Step(lib: Library, s: System, a: Action): System
    requires lib.Lawful()
  {
    match a
    case Get(r) =>
      if s.At(r).Idle? then s.Move(r, Fetched(s.bundle, s.version)) else s
    case MergeLocally(r, file, now) =>
      if !s.At(r).Fetched? then s
      else
        var base := s.At(r).base;
        (match Merge(lib, now, base, file)
         case Rejected(_) => s.Move(r, Idle)
         case Merged(next) =>
           var mounted := lib.Parse(file).value;
           if next == base then s.Move(r, Idle).(log := s.log + [Entry(r, now, file, mounted, false)])
           else s.Move(r, Ready(base, s.At(r).version, next, now, file, mounted)))
    case Send(r, fate) =>
      if !s.At(r).Ready? then s
      else if Applies(s, r, fate) then
        var p := s.At(r);
        s.Move(r, if fate == Answered then Waiting else Idle)
         .(bundle := p.next, version := s.version + 1, log := s.log + [Entry(r, p.now, p.file, p.mounted, true)])
      else s.Move(r, Idle)
    case WakeUp(r) => if s.At(r).Waiting? then s.Move(r, Idle) else s
    case GiveUp(r) => s.Move(r, Idle)
    case Touch => s.(version := s.version + 1)
  }

  function Exec(lib: Library, s: System, acts: seq<Action>): System
    requires lib.Lawful()
  {
    if acts == [] then s else Step(lib, Exec(lib, s, acts[..|acts| - 1]), acts[|acts| - 1])
  }

  function Start(bundle: string): System {
    System(bundle, 0, map[], [])
  }

  /** The certificates a stored text holds; none when it cannot be read. */
  function CertsOf(lib: Library, bundle: string): seq<Cert>
    requires lib.Lawful()
  {
    match lib.Stored(bundle) case None => [] case Some(certs) => certs
  }

  /** No writer's clock is past the certificate's NotAfter. */
  predicate OutlivesWriters(c: Cert, log: seq<Entry>) {
    forall e :: e in log && e.wrote ==> e.now <= c.notAfter
  }

  predicate Holds(lib: Library, s: System, c: Cert)
    requires lib.Lawful()
  {
    c in CertsOf(lib, s.bundle)
  }

  /** Everything `bundle` holds that outlives the writers is still stored. */
  ghost predicate StillThere(lib: Library, s: System, bundle: string)
    requires lib.Lawful()
  {
    forall c :: c in CertsOf(lib, bundle) && OutlivesWriters(c, s.log) ==> Holds(lib, s, c)
  }

  /** What a replica in the middle of a refresh knows: its version is not ahead of the object's, an equal
      version means an equal bundle, and a prepared write is a merge onto the fetched bundle. */
  ghost predicate PhaseInv(lib: Library, s: System, p: Phase)
    requires lib.Lawful()
  {
    && (p.Fetched? || p.Ready? ==>
          && p.version <= s.version
          && (p.version == s.version ==> p.base == s.bundle)
          && StillThere(lib, s, p.base))
    && (p.Ready? ==> PreparedMerge(lib, p))
  }

  ghost predicate PreparedMerge(lib: Library, p: Phase)
    requires lib.Lawful() && p.Ready?
  {
    && p.next != p.base
    && lib.Parse(p.file) == Some(p.mounted) && Merge(lib, p.now, p.base, p.file) == Merged(p.next)
  }

  /** Every mounted certificate of an effective refresh that was valid at that refresh's clock and outlives
      the writers is stored. */
  ghost predicate EntryInv(lib: Library, s: System, e: Entry)
    requires lib.Lawful()
  {
    forall c :: c in e.mounted && e.now <= c.notAfter && OutlivesWriters(c, s.log) ==> Holds(lib, s, c)
  }

  /** Nothing is stored that was neither there at the start nor mounted in a refresh that wrote. */
  ghost predicate Origin(lib: Library, initial: string, s: System)
    requires lib.Lawful()
  {
    forall c :: Holds(lib, s, c) ==>
      c in CertsOf(lib, initial) || exists e :: e in s.log && e.wrote && c in e.mounted
  }

  ghost predicate Inv(lib: Library, initial: string, s: System)
    requires lib.Lawful()
  {
    && (forall r :: PhaseInv(lib, s, s.At(r)))
    && (forall e :: e in s.log ==> EntryInv(lib, s, e))
    && StillThere(lib, s, initial)
    && Origin(lib, initial, s)
  }

  // ---- One replica alone ----

  function ReplyOf(fate: Fate): Injector.UpdateReply {
    match fate
    case Answered => Injector.Applied
    case AnswerLost => Injector.AppliedAnswerLost
    case NeverArrived => Injector.NotApplied
  }

  /** The steps of one refresh, taken without interruption, are the refresh of a single writer: they leave the same
      bundle and the replica idle, and record the refresh exactly when it took effect. */
  lemma {:induction false} UninterruptedRefresh(lib: Library, s: System, r: nat, file: Bytes, now: int, fate: Fate,
                                                waits: bool)
    requires lib.Lawful() && s.At(r).Idle?
    ensures var s' := Exec(lib, s, [Get(r), MergeLocally(r, file, now), Send(r, fate), WakeUp(r)]);
            var refresh := Injector.Refresh(true, Some(file), now, ReplyOf(fate), waits);
            && s'.bundle == Injector.RefreshOnce(lib, s.bundle, refresh).0
            && s'.At(r).Idle?
            && (|s'.log| == |s.log| + 1 <==> Injector.Took(lib, s.bundle, refresh))
  {
    FourSteps(lib, s, Get(r), MergeLocally(r, file, now), Send(r, fate), WakeUp(r));
  }

  lemma FourSteps(lib: Library, s: System, a: Action, b: Action, c: Action, d: Action)
    requires lib.Lawful()
    ensures Exec(lib, s, [a, b, c, d]) == Step(lib, Step(lib, Step(lib, Step(lib, s, a), b), c), d)
  {
    assert [a, b, c, d][..3] == [a, b, c] && [a, b, c][..2] == [a, b] && [a, b][..1] == [a] && [a][..0] == [];
    assert Exec(lib, s, [a]) == Step(lib, s, a);
    assert Exec(lib, s, [a, b]) == Step(lib, Step(lib, s, a), b);
    assert Exec(lib, s, [a, b, c]) == Step(lib, Step(lib, Step(lib, s, a), b), c);
  }

  /** After its update request a replica waits exactly when the write was applied and acknowledged; else the refresh
      is over. No step moves another replica. */
  lemma AfterSending(lib: Library, s: System, a: Action, q: nat)
    requires lib.Lawful()
    ensures a.Send? && s.At(a.r).Ready? ==>
              Step(lib, s, a).At(a.r) == if Applies(s, a.r, a.fate) && a.fate == Answered then Waiting else Idle
    ensures a.Touch? || q != a.r ==> Step(lib, s, a).At(q) == s.At(q)
  {
  }

  // ---- The effect of one applied write ----

  /** What the prepared text holds: the unexpired certificates of the fetched text and of the file. */
  lemma PreparedContents(lib: Library, p: Phase, c: Cert)
    requires lib.Lawful() && p.Ready? && PreparedMerge(lib, p)
    ensures c in CertsOf(lib, p.next) <==> (c in CertsOf(lib, p.base) || c in p.mounted) && p.now <= c.notAfter
  {
    MergeMeaning(lib, p.now, p.base, p.file);
  }

  /** The log only grows, so what outlives the writers later outlived them before. */
  lemma OutlivesEarlier(c: Cert, log: seq<Entry>, e: Entry)
    requires OutlivesWriters(c, log + [e])
    ensures OutlivesWriters(c, log) && (e.wrote ==> e.now <= c.notAfter)
  {
    assert e in log + [e];
    forall x | x in log && x.wrote ensures x.now <= c.notAfter {
      assert x in log + [e];
    }
  }

  /** An applied write keeps everything stored that outlives the writers, the new one included. */
  lemma WriteKeeps(lib: Library, s: System, p: Phase, s': System, e: Entry)
    requires lib.Lawful() && p.Ready? && PreparedMerge(lib, p) && p.base == s.bundle
    requires s'.bundle == p.next && s'.log == s.log + [e]
    requires e.wrote && e.now == p.now && e.mounted == p.mounted
    ensures forall c :: Holds(lib, s, c) && OutlivesWriters(c, s'.log) ==> Holds(lib, s', c)
    ensures EntryInv(lib, s', e)
    ensures forall c :: Holds(lib, s', c) ==> Holds(lib, s, c) || c in e.mounted
  {
    forall c
      ensures Holds(lib, s, c) && OutlivesWriters(c, s'.log) ==> Holds(lib, s', c)
      ensures c in e.mounted && e.now <= c.notAfter ==> Holds(lib, s', c)
      ensures Holds(lib, s', c) ==> Holds(lib, s, c) || c in e.mounted
    {
      PreparedContents(lib, p, c);
      if OutlivesWriters(c, s'.log) {
        OutlivesEarlier(c, s.log, e);
      }
    }
  }

  // ---- The invariant is preserved ----

  /** If a step keeps what is stored and outlives the writers, earlier promises carry over. */
  lemma StillThereCarries(lib: Library, s: System, s': System, bundle: string)
    requires lib.Lawful() && StillThere(lib, s, bundle)
    requires forall c :: OutlivesWriters(c, s'.log) ==> OutlivesWriters(c, s.log)
    requires forall c :: Holds(lib, s, c) && OutlivesWriters(c, s'.log) ==> Holds(lib, s', c)
    ensures StillThere(lib, s', bundle)
  {
  }

  lemma EntryCarries(lib: Library, s: System, s': System, e: Entry)
    requires lib.Lawful() && EntryInv(lib, s, e)
    requires forall c :: OutlivesWriters(c, s'.log) ==> OutlivesWriters(c, s.log)
    requires forall c :: Holds(lib, s, c) && OutlivesWriters(c, s'.log) ==> Holds(lib, s', c)
    ensures EntryInv(lib, s', e)
  {
  }

  lemma SendKeepsInv(lib: Library, initial: string, s: System, r: nat, fate: Fate)
    requires lib.Lawful() && Inv(lib, initial, s) && Applies(s, r, fate)
    ensures Inv(lib, initial, Step(lib, s, Send(r, fate)))
  {
    var p := s.At(r);
    assert PhaseInv(lib, s, p);
    var s' := Step(lib, s, Send(r, fate));
    var e := Entry(r, p.now, p.file, p.mounted, true);
    WriteKeeps(lib, s, p, s', e);
    forall c | OutlivesWriters(c, s'.log) ensures OutlivesWriters(c, s.log) {
      OutlivesEarlier(c, s.log, e);
    }
    forall q: nat ensures PhaseInv(lib, s', s'.At(q)) {
      assert PhaseInv(lib, s, s.At(q));
      if q != r && (s.At(q).Fetched? || s.At(q).Ready?) {
        StillThereCarries(lib, s, s', s.At(q).base);
      }
    }
    forall x | x in s'.log ensures EntryInv(lib, s', x) {
      if x in s.log {
        EntryCarries(lib, s, s', x);
      }
    }
    StillThereCarries(lib, s, s', initial);
    OriginAfterWrite(lib, initial, s, s', e);
  }

  lemma OriginAfterWrite(lib: Library, initial: string, s: System, s': System, e: Entry)
    requires lib.Lawful() && Origin(lib, initial, s)
    requires s'.log == s.log + [e] && e.wrote
    requires forall c :: Holds(lib, s', c) ==> Holds(lib, s, c) || c in e.mounted
    ensures Origin(lib, initial, s')
  {
    forall c | Holds(lib, s', c)
      ensures c in CertsOf(lib, initial) || exists x :: x in s'.log && x.wrote && c in x.mounted
    {
      if Holds(lib, s, c) {
        if c !in CertsOf(lib, initial) {
          var x :| x in s.log && x.wrote && c in x.mounted;
          assert x in s'.log;
        }
      } else {
        assert e in s'.log;
      }
    }
  }

  lemma MergeKeepsInv(lib: Library, initial: string, s: System, r: nat, file: Bytes, now: int)
    requires lib.Lawful() && Inv(lib, initial, s) && s.At(r).Fetched?
    ensures Inv(lib, initial, Step(lib, s, MergeLocally(r, file, now)))
  {
    var p := s.At(r);
    assert PhaseInv(lib, s, p);
    var s' := Step(lib, s, MergeLocally(r, file, now));
    var m := Merge(lib, now, p.base, file);
    if m.Merged? && m.bundle == p.base {
      var e := Entry(r, now, file, lib.Parse(file).value, false);
      FoundUpToDate(lib, s, s', p.base, file, now, e);
      SameStore(lib, initial, s, s', e);
    } else {
      assert s'.log == s.log && s'.bundle == s.bundle;
      forall x | x in s'.log ensures EntryInv(lib, s', x) {
        EntryCarries(lib, s, s', x);
      }
      assert forall c :: Holds(lib, s', c) <==> Holds(lib, s, c);
    }
    forall q: nat ensures PhaseInv(lib, s', s'.At(q)) {
      assert PhaseInv(lib, s, s.At(q));
    }
  }

  /** A refresh that finds its merge in the text it fetched, however stale, still finds its certificates in
      the current text. */
  lemma FoundUpToDate(lib: Library, s: System, s': System, base: string, file: Bytes, now: int, e: Entry)
    requires lib.Lawful() && StillThere(lib, s, base)
    requires Merge(lib, now, base, file) == Merged(base)
    requires s'.bundle == s.bundle && s'.log == s.log + [e]
    requires e.now == now && e.mounted == lib.Parse(file).value && !e.wrote
    ensures EntryInv(lib, s', e)
  {
    MergeMeaning(lib, now, base, file);
    forall c | c in e.mounted && now <= c.notAfter && OutlivesWriters(c, s'.log) ensures Holds(lib, s', c) {
      OutlivesEarlier(c, s.log, e);
    }
  }

  lemma SameStore(lib: Library, initial: string, s: System, s': System, e: Entry)
    requires lib.Lawful() && Inv(lib, initial, s)
    requires s'.bundle == s.bundle && s'.log == s.log + [e] && !e.wrote
    requires EntryInv(lib, s', e)
    ensures forall c :: OutlivesWriters(c, s'.log) ==> OutlivesWriters(c, s.log)
    ensures forall x :: x in s'.log ==> EntryInv(lib, s', x)
    ensures StillThere(lib, s', initial) && Origin(lib, initial, s')
  {
    forall c | OutlivesWriters(c, s'.log) ensures OutlivesWriters(c, s.log) {
      OutlivesEarlier(c, s.log, e);
    }
    forall x | x in s'.log ensures EntryInv(lib, s', x) {
      if x in s.log {
        EntryCarries(lib, s, s', x);
      }
    }
    forall c | Holds(lib, s', c)
      ensures c in CertsOf(lib, initial) || exists x :: x in s'.log && x.wrote && c in x.mounted
    {
      assert Holds(lib, s, c);
      if c !in CertsOf(lib, initial) {
        var x :| x in s.log && x.wrote && c in x.mounted;
        assert x in s'.log;
      }
    }
  }

  lemma StepKeepsInv(lib: Library, initial: string, s: System, a: Action)
    requires lib.Lawful() && Inv(lib, initial, s)
    ensures Inv(lib, initial, Step(lib, s, a))
  {
    var s' := Step(lib, s, a);
    match a
    case Send(r, fate) =>
      if Applies(s, r, fate) {
        SendKeepsInv(lib, initial, s, r, fate);
      } else {
        QuietStep(lib, initial, s, s');
      }
    case MergeLocally(r, file, now) =>
      if s.At(r).Fetched? {
        MergeKeepsInv(lib, initial, s, r, file, now);
      }
    case _ =>
      QuietStep(lib, initial, s, s');
  }

  /** Steps that leave the stored text and the history alone. */
  lemma QuietStep(lib: Library, initial: string, s: System, s': System)
    requires lib.Lawful() && Inv(lib, initial, s)
    requires s'.bundle == s.bundle && s'.log == s.log && s.version <= s'.version
    requires forall r :: s'.At(r) == s.At(r) || s'.At(r).Idle? || s'.At(r).Waiting?
                         || s'.At(r) == Fetched(s'.bundle, s'.version)
    ensures Inv(lib, initial, s')
  {
    assert forall c :: Holds(lib, s', c) <==> Holds(lib, s, c);
    forall q: nat ensures PhaseInv(lib, s', s'.At(q)) {
      assert PhaseInv(lib, s, s.At(q));
    }
    forall x | x in s'.log ensures EntryInv(lib, s', x) {
      EntryCarries(lib, s, s', x);
    }
  }

  /** The invariant holds after every interleaving. */
  lemma {:induction false} ExecKeepsInv(lib: Library, initial: string, acts: seq<Action>)
    requires lib.Lawful()
    ensures Inv(lib, initial, Exec(lib, Start(initial), acts))
  {
    if acts != [] {
      ExecKeepsInv(lib, initial, acts[..|acts| - 1]);
      StepKeepsInv(lib, initial, Exec(lib, Start(initial), acts[..|acts| - 1]), acts[|acts| - 1]);
    }
  }

  // ---- What it means ----

  /** No lost CA: in every reachable state, a stored certificate leaves only in an applied write whose clock is
      past the certificate's NotAfter. */
  lemma LeavesOnlyWhenExpired(lib: Library, initial: string, acts: seq<Action>, a: Action, c: Cert)
    requires lib.Lawful()
    requires var s := Exec(lib, Start(initial), acts); Holds(lib, s, c) && !Holds(lib, Step(lib, s, a), c)
    ensures var s := Exec(lib, Start(initial), acts);
            a.Send? && Applies(s, a.r, a.fate) && c.notAfter < s.At(a.r).now
  {
    var s := Exec(lib, Start(initial), acts);
    ExecKeepsInv(lib, initial, acts);
    if a.Send? && Applies(s, a.r, a.fate) {
      assert PhaseInv(lib, s, s.At(a.r));
      PreparedContents(lib, s.At(a.r), c);
    }
  }

  /** Every mounted CA arrives: once each replica of a set has had an effective refresh `took(r)` (one that wrote,
      even if its answer or its propagation wait was cut short, or that found nothing to do), the stored bundle
      holds every certificate mounted in those refreshes that was valid at the refresh's clock and at every
      writer's clock. */
  lemma MountedCertificatesArrive(lib: Library, initial: string, acts: seq<Action>, replicas: set<nat>,
                                  took: nat -> Entry)
    requires lib.Lawful()
    requires forall r :: r in replicas ==> took(r).replica == r && took(r) in Exec(lib, Start(initial), acts).log
    ensures var s := Exec(lib, Start(initial), acts);
            forall r, c | r in replicas && c in took(r).mounted ::
              took(r).now <= c.notAfter && OutlivesWriters(c, s.log) ==> Holds(lib, s, c)
  {
    var s := Exec(lib, Start(initial), acts);
    ExecKeepsInv(lib, initial, acts);
    forall r | r in replicas ensures EntryInv(lib, s, took(r)) {
    }
  }

  /** The exact contents over every run: an initial certificate that outlives the writers stays, and nothing
      is stored that was not there at the start or mounted in a refresh that wrote. */
  lemma StoredContents(lib: Library, initial: string, acts: seq<Action>, c: Cert)
    requires lib.Lawful()
    ensures var s := Exec(lib, Start(initial), acts);
            && (c in CertsOf(lib, initial) && OutlivesWriters(c, s.log) ==> Holds(lib, s, c))
            && (Holds(lib, s, c) ==>
                  c in CertsOf(lib, initial) || exists e :: e in s.log && e.wrote && c in e.mounted)
  {
    ExecKeepsInv(lib, initial, acts);
  }

  // ---- Every interleaving is a run of one writer ----

  /** The writing refreshes of a history, in its order, as one writer would have made them. */
  function Serial(log: seq<Entry>): seq<Injector.Refresh> {
    if log == [] then []
    else
      var e := log[|log| - 1];
      Serial(log[..|log| - 1])
      + if e.wrote then [Injector.Refresh(true, Some(e.file), e.now, Injector.Applied, true)] else []
  }

  /** The certificates mounted by the writers, in the order of their writes. */
  function MountedByWriters(log: seq<Entry>): seq<Cert> {
    if log == [] then []
    else
      var e := log[|log| - 1];
      MountedByWriters(log[..|log| - 1]) + if e.wrote then e.mounted else []
  }

  /** What is stored is the serial run's result, and that run collected what the writers mounted. */
  ghost predicate IsSerial(lib: Library, initial: string, s: System)
    requires lib.Lawful()
  {
    && s.bundle == Injector.Run(lib, initial, Serial(s.log))
    && Injector.Collected(lib, initial, Serial(s.log), false) == MountedByWriters(s.log)
    && Injector.LastTaken(lib, initial, Serial(s.log)) == LastWrite(s.log)
  }

  /** The clock of the last write. */
  function LastWrite(log: seq<Entry>): Option<int> {
    if log == [] then None
    else if log[|log| - 1].wrote then Some(log[|log| - 1].now) else LastWrite(log[..|log| - 1])
  }

  lemma SerialWrite(lib: Library, initial: string, s: System, p: Phase, s': System, e: Entry)
    requires lib.Lawful() && IsSerial(lib, initial, s)
    requires p.Ready? && PreparedMerge(lib, p) && p.base == s.bundle
    requires s'.bundle == p.next && s'.log == s.log + [e]
    requires e.wrote && e.now == p.now && e.file == p.file && e.mounted == p.mounted
    ensures IsSerial(lib, initial, s')
  {
    var refresh := Injector.Refresh(true, Some(p.file), p.now, Injector.Applied, true);
    assert s'.log[..|s.log|] == s.log;
    Injector.OneMoreRefresh(lib, initial, Serial(s.log), refresh);
  }

  lemma SerialQuiet(lib: Library, initial: string, s: System, s': System)
    requires lib.Lawful() && IsSerial(lib, initial, s) && s'.bundle == s.bundle
    requires s'.log == s.log || (|s'.log| > 0 && !s'.log[|s'.log| - 1].wrote && s'.log[..|s'.log| - 1] == s.log)
    ensures IsSerial(lib, initial, s')
  {
    if s'.log != s.log {
      assert Serial(s.log) + [] == Serial(s.log) && MountedByWriters(s.log) + [] == MountedByWriters(s.log);
    }
  }

  /** Serialisation: after every interleaving the stored text is the one a single writer leaves that makes the writing
      refreshes one after the other, in the order of the history. */
  lemma {:induction false} InterleavingIsSerial(lib: Library, initial: string, acts: seq<Action>)
    requires lib.Lawful()
    ensures IsSerial(lib, initial, Exec(lib, Start(initial), acts))
  {
    if acts != [] {
      var init, a := acts[..|acts| - 1], acts[|acts| - 1];
      var s := Exec(lib, Start(initial), init);
      InterleavingIsSerial(lib, initial, init);
      StepHistory(lib, s, a);
      if a.Send? && Applies(s, a.r, a.fate) {
        ExecKeepsInv(lib, initial, init);
        var p := s.At(a.r);
        assert PhaseInv(lib, s, p);
        SerialWrite(lib, initial, s, p, Step(lib, s, a), Entry(a.r, p.now, p.file, p.mounted, true));
      } else {
        SerialQuiet(lib, initial, s, Step(lib, s, a));
      }
    }
  }

  /** Run collapse over replicas: when the writers' clocks are in the order of their writes, the stored bundle is one
      merge, at the last writer's clock, of the initial bundle with everything the writers mounted. */
  lemma {:induction false} InterleavingCollapses(lib: Library, initial: string, acts: seq<Action>)
    requires lib.Lawful()
    requires Injector.ClockNeverGoesBack(Serial(Exec(lib, Start(initial), acts).log))
    requires LastWrite(Exec(lib, Start(initial), acts).log).Some?
    ensures var s := Exec(lib, Start(initial), acts);
            Merge(lib, LastWrite(s.log).value, initial, lib.EncodeBlocks(MountedByWriters(s.log))) == Merged(s.bundle)
  {
    var s := Exec(lib, Start(initial), acts);
    InterleavingIsSerial(lib, initial, acts);
    Injector.RunCollapse(lib, initial, Serial(s.log));
  }

  // ---- Replicas do not fight ----

  function Writes(log: seq<Entry>): nat {
    if log == [] then 0 else Writes(log[..|log| - 1]) + if log[|log| - 1].wrote then 1 else 0
  }

  function StoredSet(lib: Library, s: System): set<Cert>
    requires lib.Lawful()
  {
    set c | c in CertsOf(lib, s.bundle)
  }

  /** The stored text is the one rendering of a nonempty list without repeats. */
  ghost predicate Canonical(lib: Library, bundle: string)
    requires lib.Lawful()
  {
    var certs := CertsOf(lib, bundle);
    lib.Stored(bundle).Some? && certs != [] && bundle == lib.Render(certs) && DistinctKeys(certs)
  }

  lemma PreparedIsCanonical(lib: Library, p: Phase)
    requires lib.Lawful() && p.Ready? && PreparedMerge(lib, p)
    ensures Canonical(lib, p.next)
  {
    MergeMeaning(lib, p.now, p.base, p.file);
  }

  /** A replica writes onto a canonical bundle without expired entries only to add a certificate it lacks. */
  lemma {:induction false} WriteAddsCertificate(lib: Library, p: Phase) returns (c: Cert)
    requires lib.Lawful() && p.Ready? && PreparedMerge(lib, p) && Canonical(lib, p.base)
    requires forall x :: x in CertsOf(lib, p.base) ==> p.now <= x.notAfter
    ensures c in p.mounted && c !in CertsOf(lib, p.base) && c in CertsOf(lib, p.next)
  {
    UpToDateIff(lib, p.now, p.base, p.file);
    c :| c in p.mounted && p.now <= c.notAfter && c !in CertsOf(lib, p.base);
    PreparedContents(lib, p, c);
  }

  lemma {:induction false} SubsetIsSmaller<T>(a: set<T>, b: set<T>)
    requires a <= b
    ensures |a| <= |b|
  {
    if a != {} {
      var x :| x in a;
      SubsetIsSmaller(a - {x}, b - {x});
    }
  }

  lemma WritesOfAppend(log: seq<Entry>, e: Entry)
    ensures Writes(log + [e]) == Writes(log) + if e.wrote then 1 else 0
  {
    assert (log + [e])[..|log|] == log;
  }

  /** Writers mount nothing outside `universe`. */
  predicate Within(universe: set<Cert>, log: seq<Entry>) {
    forall e :: e in log && e.wrote ==> forall c :: c in e.mounted ==> c in universe
  }

  /** A certificate that has expired for one writer has expired for every later one. */
  predicate ExpiryIsFinal(universe: set<Cert>, log: seq<Entry>) {
    forall i, j :: 0 <= i < j < |log| ==> ExpiredBeforeIs(universe, log[i], log[j])
  }

  predicate ExpiredBeforeIs(universe: set<Cert>, a: Entry, b: Entry) {
    a.wrote && b.wrote ==> forall c :: c in universe && c.notAfter < a.now ==> c.notAfter < b.now
  }

  /** The certificates that have expired for the last writer. */
  function Gone(universe: set<Cert>, log: seq<Entry>): set<Cert> {
    match LastWrite(log)
    case None => {}
    case Some(t) => set c | c in universe && c.notAfter < t
  }

  /** A step appends at most one entry to the history, and writes exactly when a request is applied. */
  lemma StepHistory(lib: Library, s: System, a: Action)
    requires lib.Lawful()
    ensures var s' := Step(lib, s, a);
            if a.Send? && Applies(s, a.r, a.fate) then
              var p := s.At(a.r);
              s'.bundle == p.next && s'.log == s.log + [Entry(a.r, p.now, p.file, p.mounted, true)]
            else
              && s'.bundle == s.bundle
              && (s'.log == s.log || (|s'.log| > 0 && !s'.log[|s'.log| - 1].wrote && s'.log[..|s'.log| - 1] == s.log))
  {
  }

  lemma {:induction false} LastWriteOccurs(log: seq<Entry>) returns (i: nat)
    requires LastWrite(log).Some?
    ensures i < |log| && log[i].wrote && LastWrite(log) == Some(log[i].now)
  {
    if log[|log| - 1].wrote {
      i := |log| - 1;
    } else {
      i := LastWriteOccurs(log[..|log| - 1]);
    }
  }

  lemma GoneGrows(universe: set<Cert>, log: seq<Entry>, e: Entry)
    requires e.wrote && ExpiryIsFinal(universe, log + [e])
    ensures Gone(universe, log) <= Gone(universe, log + [e])
    ensures Gone(universe, log + [e]) == set c | c in universe && c.notAfter < e.now
  {
    if LastWrite(log).Some? {
      var i := LastWriteOccurs(log);
      assert ExpiredBeforeIs(universe, (log + [e])[i], (log + [e])[|log|]);
    }
  }

  lemma PrefixKeepsConditions(universe: set<Cert>, log: seq<Entry>, more: seq<Entry>)
    requires Within(universe, log + more) && ExpiryIsFinal(universe, log + more)
    ensures Within(universe, log) && ExpiryIsFinal(universe, log)
  {
    forall e | e in log ensures e in log + more {
    }
    forall i, j | 0 <= i < j < |log| ensures ExpiredBeforeIs(universe, log[i], log[j]) {
      assert ExpiredBeforeIs(universe, (log + more)[i], (log + more)[j]);
    }
  }

  /** Everything stored lies in the universe. */
  lemma StoredWithin(lib: Library, initial: string, acts: seq<Action>, universe: set<Cert>)
    requires lib.Lawful()
    requires forall c :: c in CertsOf(lib, initial) ==> c in universe
    requires Within(universe, Exec(lib, Start(initial), acts).log)
    ensures StoredSet(lib, Exec(lib, Start(initial), acts)) <= universe
  {
    var s := Exec(lib, Start(initial), acts);
    ExecKeepsInv(lib, initial, acts);
    forall c | c in StoredSet(lib, s) ensures c in universe {
      assert Holds(lib, s, c);
    }
  }

  /** Each certificate counts once when it has been stored or has expired, and once more when it has expired. */
  function Progress(stored: set<Cert>, gone: set<Cert>): nat {
    |stored + gone| + |gone|
  }

  /** After the first write the stored text is canonical and holds nothing that had expired for its writer, and the
      number of writes does not exceed the progress made. */
  ghost predicate Grown(lib: Library, universe: set<Cert>, s: System)
    requires lib.Lawful()
  {
    Writes(s.log) > 0 ==>
      && Canonical(lib, s.bundle)
      && StoredSet(lib, s) !! Gone(universe, s.log)
      && Writes(s.log) <= Progress(StoredSet(lib, s), Gone(universe, s.log))
  }

  lemma ProgressGrows(stored: set<Cert>, gone: set<Cert>, stored': set<Cert>, gone': set<Cert>, c: Cert)
    requires gone <= gone' && stored + gone <= stored' + gone'
    requires (c in stored' + gone' && c !in stored + gone) || (c in gone' && c !in gone)
    ensures Progress(stored, gone) < Progress(stored', gone')
  {
    SubsetIsSmaller(stored + gone, stored' + gone');
    SubsetIsSmaller(gone, gone');
    if c in gone' && c !in gone {
      SubsetIsSmaller(gone + {c}, gone');
    } else {
      SubsetIsSmaller(stored + gone + {c}, stored' + gone');
    }
  }

  /** What an applied write does to the two sets. */
  lemma WriteMovesSets(lib: Library, universe: set<Cert>, p: Phase, gone: set<Cert>, gone': set<Cert>)
    requires lib.Lawful() && p.Ready? && PreparedMerge(lib, p)
    requires (forall c :: c in CertsOf(lib, p.base) ==> c in universe) && (forall c :: c in p.mounted ==> c in universe)
    requires gone <= gone' == set c | c in universe && c.notAfter < p.now
    ensures var stored, stored' := (set c | c in CertsOf(lib, p.base)), (set c | c in CertsOf(lib, p.next));
            stored' !! gone' && stored + gone <= stored' + gone'
  {
    forall c
      ensures c in CertsOf(lib, p.next) <==> (c in CertsOf(lib, p.base) || c in p.mounted) && p.now <= c.notAfter
    {
      PreparedContents(lib, p, c);
    }
  }

  /** A write onto a canonical bundle adds a certificate or drops one that has expired. */
  lemma WriteMakesProgress(lib: Library, universe: set<Cert>, p: Phase, gone: set<Cert>, gone': set<Cert>)
    requires lib.Lawful() && p.Ready? && PreparedMerge(lib, p) && Canonical(lib, p.base)
    requires (forall c :: c in CertsOf(lib, p.base) ==> c in universe) && (forall c :: c in p.mounted ==> c in universe)
    requires gone <= gone' == set c | c in universe && c.notAfter < p.now
    requires forall c :: c in CertsOf(lib, p.base) ==> c !in gone
    ensures var stored, stored' := (set c | c in CertsOf(lib, p.base)), (set c | c in CertsOf(lib, p.next));
            Progress(stored, gone) < Progress(stored', gone')
  {
    WriteMovesSets(lib, universe, p, gone, gone');
    var stored, stored' := (set c | c in CertsOf(lib, p.base)), (set c | c in CertsOf(lib, p.next));
    if c :| c in CertsOf(lib, p.base) && c.notAfter < p.now {
      ProgressGrows(stored, gone, stored', gone', c);
    } else {
      var c := WriteAddsCertificate(lib, p);
      ProgressGrows(stored, gone, stored', gone', c);
    }
  }

  lemma GrowthStep(lib: Library, universe: set<Cert>, s: System, p: Phase, s': System, e: Entry)
    requires lib.Lawful() && Grown(lib, universe, s) && StoredSet(lib, s) <= universe
    requires p.Ready? && PreparedMerge(lib, p) && p.base == s.bundle
    requires s'.bundle == p.next && s'.log == s.log + [e]
    requires e.wrote && e.now == p.now && e.mounted == p.mounted
    requires Within(universe, s'.log) && ExpiryIsFinal(universe, s'.log)
    ensures Grown(lib, universe, s')
  {
    PreparedIsCanonical(lib, p);
    WritesOfAppend(s.log, e);
    GoneGrows(universe, s.log, e);
    assert e in s'.log;
    assert forall c :: c in CertsOf(lib, p.base) ==> c in StoredSet(lib, s);
    var gone, gone' := Gone(universe, s.log), Gone(universe, s'.log);
    WriteMovesSets(lib, universe, p, gone, gone');
    if Writes(s.log) > 0 {
      WriteMakesProgress(lib, universe, p, gone, gone');
    } else {
      var first := CertsOf(lib, s'.bundle)[0];
      SubsetIsSmaller({first}, StoredSet(lib, s') + gone');
    }
  }

  lemma QuietGrowth(lib: Library, universe: set<Cert>, s: System, s': System)
    requires lib.Lawful() && Grown(lib, universe, s) && s'.bundle == s.bundle
    requires s'.log == s.log || (|s'.log| > 0 && !s'.log[|s'.log| - 1].wrote && s'.log[..|s'.log| - 1] == s.log)
    ensures Grown(lib, universe, s')
  {
    assert Writes(s'.log) == Writes(s.log) && LastWrite(s'.log) == LastWrite(s.log);
  }

  lemma LogGrows(lib: Library, s: System, a: Action) returns (more: seq<Entry>)
    requires lib.Lawful()
    ensures Step(lib, s, a).log == s.log + more
  {
    StepHistory(lib, s, a);
    more := Step(lib, s, a).log[|s.log|..];
  }

  lemma {:induction false} WritesMakeProgress(lib: Library, initial: string, acts: seq<Action>, universe: set<Cert>)
    requires lib.Lawful()
    requires forall c :: c in CertsOf(lib, initial) ==> c in universe
    requires var log := Exec(lib, Start(initial), acts).log; Within(universe, log) && ExpiryIsFinal(universe, log)
    ensures Grown(lib, universe, Exec(lib, Start(initial), acts))
  {
    if acts != [] {
      var init, a := acts[..|acts| - 1], acts[|acts| - 1];
      var s := Exec(lib, Start(initial), init);
      var more := LogGrows(lib, s, a);
      PrefixKeepsConditions(universe, s.log, more);
      WritesMakeProgress(lib, initial, init, universe);
      StepHistory(lib, s, a);
      if a.Send? && Applies(s, a.r, a.fate) {
        var p := s.At(a.r);
        StoredWithin(lib, initial, init, universe);
        ExecKeepsInv(lib, initial, init);
        assert PhaseInv(lib, s, p);
        GrowthStep(lib, universe, s, p, Step(lib, s, a), Entry(a.r, p.now, p.file, p.mounted, true));
      } else {
        QuietGrowth(lib, universe, s, Step(lib, s, a));
      }
    }
  }

  /** Replicas that mount different files do not fight as long as what has expired for one writer has expired for the
      later ones: in any interleaving each certificate causes at most one write, and one more when it has expired. */
  lemma {:induction false} WritesAreBounded(lib: Library, initial: string, acts: seq<Action>, universe: set<Cert>)
    requires lib.Lawful()
    requires forall c :: c in CertsOf(lib, initial) ==> c in universe
    requires var log := Exec(lib, Start(initial), acts).log; Within(universe, log) && ExpiryIsFinal(universe, log)
    ensures var log := Exec(lib, Start(initial), acts).log; Writes(log) <= |universe| + |Gone(universe, log)|
  {
    var s := Exec(lib, Start(initial), acts);
    WritesMakeProgress(lib, initial, acts, universe);
    StoredWithin(lib, initial, acts, universe);
    SubsetIsSmaller(StoredSet(lib, s) + Gone(universe, s.log), universe);
  }

  /** In particular with clocks that are in the order of the writes: at most two writes for each certificate. */
  lemma {:induction false} OrderedWritesAreBounded(lib: Library, initial: string, acts: seq<Action>,
                                                   universe: set<Cert>)
    requires lib.Lawful()
    requires forall c :: c in CertsOf(lib, initial) ==> c in universe
    requires Within(universe, Exec(lib, Start(initial), acts).log)
    requires InWriteOrder(Exec(lib, Start(initial), acts).log)
    ensures Writes(Exec(lib, Start(initial), acts).log) <= 2 * |universe|
  {
    var log := Exec(lib, Start(initial), acts).log;
    assert ExpiryIsFinal(universe, log);
    WritesAreBounded(lib, initial, acts, universe);
    SubsetIsSmaller(Gone(universe, log), universe);
  }

  predicate InWriteOrder(log: seq<Entry>) {
    forall i, j :: 0 <= i < j < |log| && log[i].wrote && log[j].wrote ==> log[i].now <= log[j].now
  }

  // ---- Replicas whose clocks disagree ----

  lemma {:induction false} ExecOfConcat(lib: Library, s: System, a: seq<Action>, b: seq<Action>)
    requires lib.Lawful()
    ensures Exec(lib, s, a + b) == Exec(lib, Exec(lib, s, a), b)
  {
    if b == [] {
      assert a + b == a;
    } else {
      assert (a + b)[..|a + b| - 1] == a + b[..|b| - 1];
      ExecOfConcat(lib, s, a, b[..|b| - 1]);
    }
  }

  function RefreshSteps(r: nat, file: Bytes, now: int): seq<Action> {
    [Get(r), MergeLocally(r, file, now), Send(r, Answered), WakeUp(r)]
  }

  /** A refresh whose merge differs from what is stored writes it. */
  lemma {:induction false} OneWrite(lib: Library, s: System, r: nat, file: Bytes, now: int, next: string)
    requires lib.Lawful() && s.At(r).Idle? && Merge(lib, now, s.bundle, file) == Merged(next) && next != s.bundle
    ensures var s' := Exec(lib, s, RefreshSteps(r, file, now));
            && s'.bundle == next && s'.At(r).Idle? && (forall q :: q != r ==> s'.At(q) == s.At(q))
            && Writes(s'.log) == Writes(s.log) + 1
  {
    FourSteps(lib, s, Get(r), MergeLocally(r, file, now), Send(r, Answered), WakeUp(r));
    var s2 := Step(lib, Step(lib, s, Get(r)), MergeLocally(r, file, now));
    assert s2.At(r).Ready? && s2.At(r).next == next && s2.log == s.log && s2.version == s.version;
    WritesOfAppend(s.log, Entry(r, now, file, lib.Parse(file).value, true));
  }

  /** Two certificates: one replica, whose clock is slow, mounts both; for the other, whose clock is fast, the first has
      expired. */
  predicate Disagree(lib: Library, c: Cert, d: Cert, slow: int, fast: int) {
    && lib.Genuine([c]) && lib.Genuine([d]) && c != d
    && c.notAfter < fast && slow <= c.notAfter && slow <= d.notAfter && fast <= d.notAfter
  }

  lemma {:induction false} SelectThree(now: int, c: Cert, d: Cert)
    requires c != d && now <= d.notAfter
    ensures Select(now, [d] + [c] + [d]) == if Expired(now, c) then [d] else [d] + [c]
  {
    assert Select(now, []) == [] && [] + [d] == [d];
    SelectOfAppend(now, [], d);
    SelectOfAppend(now, [d], c);
    SelectOfAppend(now, [d] + [c], d);
  }

  lemma ThreeAsTwo(c: Cert, d: Cert)
    ensures [d] + [c] == [d, c] && [d] + [c, d] == [d, c] + [d] == [d] + [c] + [d]
  {
  }

  lemma Alternation(lib: Library, c: Cert, d: Cert, slow: int, fast: int)
    requires lib.Lawful() && Disagree(lib, c, d, slow, fast)
    ensures Merge(lib, slow, lib.Render([d]), lib.EncodeBlocks([c, d])) == Merged(lib.Render([d, c]))
    ensures Merge(lib, fast, lib.Render([d, c]), lib.EncodeBlocks([d])) == Merged(lib.Render([d]))
    ensures lib.Render([d]) != lib.Render([d, c])
  {
    assert c in [c] && d in [d];
    assert lib.Genuine([c, d]) && lib.Genuine([d, c]);
    lib.StoredOfRender([d]);
    lib.StoredOfRender([d, c]);
    lib.ParseOfEncodeBlocks([c, d]);
    lib.ParseOfEncodeBlocks([d]);
    SelectThree(slow, c, d);
    SelectThree(fast, c, d);
    ThreeAsTwo(c, d);
  }

  function Rounds(lib: Library, c: Cert, d: Cert, slow: int, fast: int, n: nat): seq<Action> {
    if n == 0 then []
    else
      Rounds(lib, c, d, slow, fast, n - 1)
      + (RefreshSteps(0, lib.EncodeBlocks([c, d]), slow) + RefreshSteps(1, lib.EncodeBlocks([d]), fast))
  }

  /** Without that condition they do fight: two replicas whose clocks disagree on one certificate undo each other's
      writes for ever, though there are only two certificates. */
  lemma {:induction false} DisagreeingReplicasFight(lib: Library, c: Cert, d: Cert, slow: int, fast: int, n: nat)
    requires lib.Lawful() && Disagree(lib, c, d, slow, fast)
    ensures var s := Exec(lib, Start(lib.Render([d])), Rounds(lib, c, d, slow, fast, n));
            Writes(s.log) == 2 * n && s.bundle == lib.Render([d]) && s.At(0).Idle? && s.At(1).Idle?
  {
    if n > 0 {
      var start, before := Start(lib.Render([d])), Rounds(lib, c, d, slow, fast, n - 1);
      DisagreeingReplicasFight(lib, c, d, slow, fast, n - 1);
      OneRound(lib, c, d, slow, fast, Exec(lib, start, before));
      ExecOfConcat(lib, start, before,
                   RefreshSteps(0, lib.EncodeBlocks([c, d]), slow) + RefreshSteps(1, lib.EncodeBlocks([d]), fast));
    }
  }

  lemma OneRound(lib: Library, c: Cert, d: Cert, slow: int, fast: int, s: System)
    requires lib.Lawful() && Disagree(lib, c, d, slow, fast)
    requires s.bundle == lib.Render([d]) && s.At(0).Idle? && s.At(1).Idle?
    ensures var s' := Exec(lib, s, RefreshSteps(0, lib.EncodeBlocks([c, d]), slow)
                                   + RefreshSteps(1, lib.EncodeBlocks([d]), fast));
            Writes(s'.log) == Writes(s.log) + 2 && s'.bundle == s.bundle && s'.At(0).Idle? && s'.At(1).Idle?
  {
    var a, b := RefreshSteps(0, lib.EncodeBlocks([c, d]), slow), RefreshSteps(1, lib.EncodeBlocks([d]), fast);
    Alternation(lib, c, d, slow, fast);
    OneWrite(lib, s, 0, lib.EncodeBlocks([c, d]), slow, lib.Render([d, c]));
    OneWrite(lib, Exec(lib, s, a), 1, lib.EncodeBlocks([d]), fast, lib.Render([d]));
    ExecOfConcat(lib, s, a, b);
  }
}

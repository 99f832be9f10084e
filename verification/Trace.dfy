/** The connection trace of a fetch: hooks that record phase timings, and what the logged fields say about the
    events. */
module Trace {
  import opened Common

  /** A duration that was not observed, and the milliseconds logged for it. */
  const UNSET := -1
  const NOT_RECORDED := -1
  const MAX_DURATION := 0x7fff_ffff_ffff_ffff
  const MIN_DURATION := -0x8000_0000_0000_0000
  const NANOS_PER_MILLI := 1_000_000

  datatype Phase = Dns | Connect | Tls

  /** A hook call with the clock reading it takes, in nanoseconds. */
  datatype Event =
    | GetConn
    | GotConn(reused: bool, idle: int, now: int)
    | Started(phase: Phase, now: int)
    | Done(phase: Phase, now: int)
    | WroteRequest(failed: bool)
    | FirstByte(now: int)

  /** `time.Since`: saturating, and the maximum for the zero time, which lies centuries back. */
  function Since(start: Option<int>, now: int): (d: int)
    ensures MIN_DURATION <= d <= MAX_DURATION
  {
    if start.None? || now - start.value > MAX_DURATION then MAX_DURATION
    else if now - start.value < MIN_DURATION then MIN_DURATION
    else now - start.value
  }

  function Millis(d: int): int {
    if d < 0 then NOT_RECORDED else d / NANOS_PER_MILLI
  }

  /** The fields about the request in flight that the first hook resets in full. */
  datatype Request = Request(lastReused: bool, lastIdle: int, ttfb: int, wroteReq: bool, gotConnAt: Option<int>)

  const NO_REQUEST := Request(false, UNSET, UNSET, false, None)

  /** A phase: its duration is reset with the request, its start is not. */
  datatype PhaseClock = PhaseClock(took: int, start: Option<int>)

  datatype Snapshot = Snapshot(
    reusedConns: nat, newConns: nat, request: Request, dns: PhaseClock, connect: PhaseClock, tls: PhaseClock)
  {
    function At(p: Phase): PhaseClock {
      match p
      case Dns => dns
      case Connect => connect
      case Tls => tls
    }

    function With(p: Phase, c: PhaseClock): Snapshot {
      match p
      case Dns => this.(dns := c)
      case Connect => this.(connect := c)
      case Tls => this.(tls := c)
    }
  }

  const IDLE := PhaseClock(UNSET, None)
  const FRESH := Snapshot(0, 0, NO_REQUEST, IDLE, IDLE, IDLE)

  function Apply(s: Snapshot, e: Event): Snapshot {
    match e
    case GetConn =>
      s.(request := NO_REQUEST,
         dns := s.dns.(took := UNSET), connect := s.connect.(took := UNSET), tls := s.tls.(took := UNSET))
    case GotConn(reused, idle, now) =>
      var r := s.request.(gotConnAt := Some(now), lastReused := reused);
      if reused then s.(reusedConns := s.reusedConns + 1, request := r.(lastIdle := idle))
      else s.(newConns := s.newConns + 1, request := r)
    case Started(p, now) => s.With(p, s.At(p).(start := Some(now)))
    case Done(p, now) => s.With(p, s.At(p).(took := Since(s.At(p).start, now)))
    case WroteRequest(failed) => if failed then s else s.(request := s.request.(wroteReq := true))
    case FirstByte(now) =>
      if s.request.gotConnAt.None? then s else s.(request := s.request.(ttfb := Since(s.request.gotConnAt, now)))
  }

  function RunFrom(s: Snapshot, es: seq<Event>): Snapshot {
    if es == [] then s else Apply(RunFrom(s, es[..|es| - 1]), es[|es| - 1])
  }

  function Run(es: seq<Event>): Snapshot {
    RunFrom(FRESH, es)
  }

  lemma RunOfSnoc(es: seq<Event>, e: Event)
    ensures Run(es + [e]) == Apply(Run(es), e)
  {
    assert (es + [e])[..|es|] == es;
  }

  /** The logged values. */
  datatype Logged = Logged(connsReused: nat, connsNew: nat, lastConnReused: bool, lastConnIdleMs: int,
                           dnsMs: int, connectMs: int, tlsMs: int, wroteRequest: bool, ttfbMs: int)
  {
    function At(p: Phase): int {
      match p
      case Dns => dnsMs
      case Connect => connectMs
      case Tls => tlsMs
    }
  }

  function Report(s: Snapshot): Logged {
    Logged(s.reusedConns, s.newConns, s.request.lastReused, Millis(s.request.lastIdle),
           Millis(s.dns.took), Millis(s.connect.took), Millis(s.tls.took), s.request.wroteReq, Millis(s.request.ttfb))
  }

  // ---- The collector ----

  class TraceCollector {
    var reusedConns: nat
    var newConns: nat
    var lastReused: bool
    var lastIdle: int
    var dns: int
    var connect: int
    var tls: int
    var ttfb: int
    var wroteReq: bool
    var dnsStart: Option<int>
    var connStart: Option<int>
    var tlsStart: Option<int>
    var gotConnAt: Option<int>
    ghost var history: seq<Event>

    ghost function View(): Snapshot
      reads this
    {
      Snapshot(reusedConns, newConns, Request(lastReused, lastIdle, ttfb, wroteReq, gotConnAt),
               PhaseClock(dns, dnsStart), PhaseClock(connect, connStart), PhaseClock(tls, tlsStart))
    }

    ghost predicate Valid()
      reads this
    {
      View() == Run(history)
    }

    constructor ()
      ensures Valid() && history == []
    {
      reusedConns, newConns := 0, 0;
      lastReused, wroteReq := false, false;
      lastIdle, dns, connect, tls, ttfb := UNSET, UNSET, UNSET, UNSET, UNSET;
      dnsStart, connStart, tlsStart, gotConnAt := None, None, None, None;
      history := [];
    }

    ghost method Record(e: Event)
      requires View() == Apply(Run(history), e)
      modifies this`history
      ensures Valid() && history == old(history) + [e]
    {
      RunOfSnoc(history, e);
      history := history + [e];
    }

    method OnGetConn()
      requires Valid()
      modifies this
      ensures Valid() && history == old(history) + [GetConn]
    {
      ttfb, dns, connect, tls := UNSET, UNSET, UNSET, UNSET;
      wroteReq, lastReused := false, false;
      lastIdle, gotConnAt := UNSET, None;
      Record(GetConn);
    }

    method OnGotConn(reused: bool, idle: int, now: int)
      requires Valid()
      modifies this
      ensures Valid() && history == old(history) + [GotConn(reused, idle, now)]
    {
      gotConnAt := Some(now);
      lastReused := reused;
      if reused {
        reusedConns := reusedConns + 1;
        lastIdle := idle;
      } else {
        newConns := newConns + 1;
      }
      Record(GotConn(reused, idle, now));
    }

    method OnDNSStart(now: int)
      requires Valid()
      modifies this
      ensures Valid() && history == old(history) + [Started(Dns, now)]
    {
      dnsStart := Some(now);
      Record(Started(Dns, now));
    }

    method OnDNSDone(now: int)
      requires Valid()
      modifies this
      ensures Valid() && history == old(history) + [Done(Dns, now)]
    {
      dns := Since(dnsStart, now);
      Record(Done(Dns, now));
    }

    method OnConnectStart(now: int)
      requires Valid()
      modifies this
      ensures Valid() && history == old(history) + [Started(Connect, now)]
    {
      connStart := Some(now);
      Record(Started(Connect, now));
    }

    method OnConnectDone(now: int)
      requires Valid()
      modifies this
      ensures Valid() && history == old(history) + [Done(Connect, now)]
    {
      connect := Since(connStart, now);
      Record(Done(Connect, now));
    }

    method OnTLSHandshakeStart(now: int)
      requires Valid()
      modifies this
      ensures Valid() && history == old(history) + [Started(Tls, now)]
    {
      tlsStart := Some(now);
      Record(Started(Tls, now));
    }

    method OnTLSHandshakeDone(now: int)
      requires Valid()
      modifies this
      ensures Valid() && history == old(history) + [Done(Tls, now)]
    {
      tls := Since(tlsStart, now);
      Record(Done(Tls, now));
    }

    method OnWroteRequest(failed: bool)
      requires Valid()
      modifies this
      ensures Valid() && history == old(history) + [WroteRequest(failed)]
    {
      if !failed {
        wroteReq := true;
      }
      Record(WroteRequest(failed));
    }

    method OnGotFirstResponseByte(now: int)
      requires Valid()
      modifies this
      ensures Valid() && history == old(history) + [FirstByte(now)]
    {
      if gotConnAt.Some? {
        ttfb := Since(gotConnAt, now);
      }
      Record(FirstByte(now));
    }

    /** What is logged, said of the hook calls alone. */
    method Fields() returns (f: Logged)
      requires Valid()
      ensures f == Report(Run(history)) && Describes(f, history) && TimesSay(f, Current(history))
    {
      f := Logged(reusedConns, newConns, lastReused, Millis(lastIdle),
                  Millis(dns), Millis(connect), Millis(tls), wroteReq, Millis(ttfb));
      ReportDescribes(history);
      ReportTimesSay(history);
    }
  }

  /** What the logged fields say about the hook calls, in terms of these alone. */
  ghost predicate Describes(f: Logged, es: seq<Event>) {
    && f.connsReused == Conns(es, true) && f.connsNew == Conns(es, false)
    && f.connsReused + f.connsNew == |Handed(es)|
    && (f.wroteRequest <==> Wrote(Current(es)))
    && (f.lastConnReused <==> LastReused(Current(es)))
    && (f.lastConnIdleMs != NOT_RECORDED && !f.lastConnReused <==> StaleIdle(Current(es)))
    && (Timely(es) ==> (f.wroteRequest && f.ttfbMs == NOT_RECORDED <==> BlackHole(Current(es))))
  }

  /** The logged times, in terms of the current request. */
  ghost predicate TimesSay(f: Logged, q: seq<Event>) {
    && IdleSays(f.lastConnIdleMs, q) && FirstByteSays(f.ttfbMs, q)
    && PhaseSays(Dns, f.dnsMs, q) && PhaseSays(Connect, f.connectMs, q) && PhaseSays(Tls, f.tlsMs, q)
  }

  lemma {:induction false} ReportTimesSay(es: seq<Event>)
    ensures TimesSay(Report(Run(es)), Current(es))
  {
    IdleIsSaid(es);
    FirstByteIsSaid(es);
    PhaseIsSaid(Dns, es);
    PhaseIsSaid(Connect, es);
    PhaseIsSaid(Tls, es);
  }

  /** The idle time of the last pooled connection, in whole milliseconds, or -1. */
  ghost predicate IdleSays(ms: int, q: seq<Event>) {
    && (forall i :: IdleOf(q, i) ==> ms == if q[i].idle < 0 then -1 else q[i].idle / 1_000_000)
    && ((forall i :: !ReusedAt(q, i)) ==> ms == -1)
  }

  /** The whole milliseconds between two readings, as far as a duration reaches; -1 when the clock went back. */
  predicate Between(ms: int, a: int, b: int) {
    (b < a ==> ms == -1) && (0 <= b - a <= 0x7fff_ffff_ffff_ffff ==> ms == (b - a) / 1_000_000)
  }

  /** The time from the connection last handed out before the last first byte to that byte, or -1. */
  ghost predicate FirstByteSays(ms: int, q: seq<Event>) {
    && (forall i, j :: AnswerSpan(q, i, j) ==> Between(ms, q[i].now, q[j].now))
    && (!Answered(q) ==> ms == -1)
  }

  predicate AnswerSpan(q: seq<Event>, i: int, j: int) {
    && ConnAt(q, i) && i < j < |q| && q[j].FirstByte?
    && (forall k :: i < k < j ==> !q[k].GotConn?) && (forall k :: j < k < |q| ==> !q[k].FirstByte?)
  }

  /** The time from the last start before a phase's last completion to that completion, or -1 without a completion. */
  ghost predicate PhaseSays(p: Phase, ms: int, q: seq<Event>) {
    && (forall i, j :: PhaseSpan(p, q, i, j) ==> Between(ms, q[i].now, q[j].now))
    && (!Completes(p, q) ==> ms == -1)
  }

  predicate PhaseSpan(p: Phase, q: seq<Event>, i: int, j: int) {
    && StartedAt(p, q, i) && DoneAt(p, q, j) && i < j
    && (forall k :: i < k < j ==> !StartedAt(p, q, k)) && (forall k :: j < k < |q| ==> !DoneAt(p, q, k))
  }

  lemma MillisBetween(a: int, b: int)
    ensures Between(Millis(Since(Some(a), b)), a, b)
  {
  }

  lemma {:induction false} IdleIsSaid(es: seq<Event>)
    ensures IdleSays(Report(Run(es)).lastConnIdleMs, Current(es))
  {
    CurrentRequestOnly(es);
    IdleMeaning(Current(es));
  }

  lemma {:induction false} NeverAnswered(q: seq<Event>)
    requires GetConn !in q && !Answered(q)
    ensures Run(q).request.ttfb == UNSET
  {
    if q != [] {
      var init, e := q[..|q| - 1], q[|q| - 1];
      assert q == init + [e];
      AnsweredOfSnoc(init, e);
      NeverAnswered(init);
      PlainMeaning(init);
    }
  }

  lemma {:induction false} FirstByteIsSaid(es: seq<Event>)
    ensures FirstByteSays(Report(Run(es)).ttfbMs, Current(es))
  {
    var q := Current(es);
    CurrentRequestOnly(es);
    forall i, j | AnswerSpan(q, i, j) ensures Between(Millis(Run(q).request.ttfb), q[i].now, q[j].now) {
      TtfbValue(q, i, j);
      MillisBetween(q[i].now, q[j].now);
    }
    if !Answered(q) {
      NeverAnswered(q);
    }
  }

  /** A phase's clock is what the current request made of it, from the start that was left over. */
  lemma {:induction false} CurrentClock(p: Phase, es: seq<Event>) returns (left: Option<int>)
    ensures Run(es).At(p) == ClockAfter(p, PhaseClock(UNSET, left), Current(es))
  {
    if es == [] {
      left := None;
    } else if es[|es| - 1] == GetConn {
      left := Run(es).At(p).start;
    } else {
      var init, e := es[..|es| - 1], es[|es| - 1];
      left := CurrentClock(p, init);
      ClockOfSnoc(p, PhaseClock(UNSET, left), Current(init), e);
      ClockOfApply(p, Run(init), e);
    }
  }

  /** What an event within a request does to a phase's clock. */
  function Ticked(p: Phase, c: PhaseClock, e: Event): PhaseClock {
    if e.Started? && e.phase == p then c.(start := Some(e.now))
    else if e.Done? && e.phase == p then c.(took := Since(c.start, e.now))
    else c
  }

  lemma ClockOfApply(p: Phase, s: Snapshot, e: Event)
    requires e != GetConn
    ensures Apply(s, e).At(p) == Ticked(p, s.At(p), e)
  {
  }

  lemma ClockOfSnoc(p: Phase, c: PhaseClock, q: seq<Event>, e: Event)
    ensures ClockAfter(p, c, q + [e]) == Ticked(p, ClockAfter(p, c, q), e)
  {
    assert (q + [e])[..|q|] == q;
  }

  lemma {:induction false} NeverCompleted(p: Phase, c: PhaseClock, q: seq<Event>)
    requires !Completes(p, q)
    ensures ClockAfter(p, c, q).took == c.took
  {
    if q != [] {
      SnocAt(p, q);
      NeverCompleted(p, c, q[..|q| - 1]);
    }
  }

  lemma {:induction false} PhaseIsSaid(p: Phase, es: seq<Event>)
    ensures PhaseSays(p, Millis(Run(es).At(p).took), Current(es))
  {
    var q := Current(es);
    var left := CurrentClock(p, es);
    var c := PhaseClock(UNSET, left);
    forall i, j | PhaseSpan(p, q, i, j) ensures Between(Millis(ClockAfter(p, c, q).took), q[i].now, q[j].now) {
      ClockValue(p, c, q, i, j);
      MillisBetween(q[i].now, q[j].now);
    }
    if !Completes(p, q) {
      NeverCompleted(p, c, q);
    }
  }

  lemma {:induction false} ReportDescribes(es: seq<Event>)
    ensures Describes(Report(Run(es)), es)
  {
    CountersMeaning(es);
    RequestMeaning(es);
    IdleWithoutReuseIff(es);
    if Timely(es) {
      BlackHoleIff(es);
    }
  }

  // ---- What the fields mean ----

  /** The events since the last GetConn, or all of them when there is none. */
  function Current(es: seq<Event>): (q: seq<Event>)
    ensures |q| <= |es| && q == es[|es| - |q|..] && GetConn !in q
    ensures |q| < |es| ==> es[|es| - |q| - 1] == GetConn
  {
    if es == [] then []
    else if es[|es| - 1] == GetConn then []
    else Current(es[..|es| - 1]) + [es[|es| - 1]]
  }

  lemma RequestStep(s: Snapshot, t: Snapshot, e: Event)
    requires s.request == t.request
    ensures Apply(s, e).request == Apply(t, e).request
  {
  }

  /** The request's fields are those of its own events: no earlier request shows in them. */
  lemma {:induction false} CurrentRequestOnly(es: seq<Event>)
    ensures Run(es).request == Run(Current(es)).request
  {
    if es != [] && es[|es| - 1] != GetConn {
      var init, e := es[..|es| - 1], es[|es| - 1];
      CurrentRequestOnly(init);
      RunOfSnoc(Current(init), e);
      RequestStep(Run(init), Run(Current(init)), e);
    }
  }

  /** Whatever came before a GetConn, and whatever comes after it, the request's fields are the same as without it. */
  lemma {:induction false} RequestForgetsHistory(h: seq<Event>, es: seq<Event>)
    ensures Run(h + [GetConn] + es).request == Run(es).request
  {
    if es == [] {
      RunOfSnoc(h, GetConn);
      assert h + [GetConn] + es == h + [GetConn];
    } else {
      var init, e := es[..|es| - 1], es[|es| - 1];
      RequestForgetsHistory(h, init);
      RunOfSnoc(h + [GetConn] + init, e);
      assert h + [GetConn] + init + [e] == h + [GetConn] + es;
    }
  }

  predicate Wrote(q: seq<Event>) {
    WroteRequest(false) in q
  }

  predicate Connected(q: seq<Event>) {
    exists i :: 0 <= i < |q| && q[i].GotConn?
  }

  predicate ReusedAt(q: seq<Event>, i: int) {
    0 <= i < |q| && q[i].GotConn? && q[i].reused
  }

  predicate ConnAt(q: seq<Event>, i: int) {
    0 <= i < |q| && q[i].GotConn?
  }

  /** The last connection handed out was a pooled one. */
  ghost predicate LastReused(q: seq<Event>) {
    exists i :: ReusedAt(q, i) && forall k :: ConnAt(q, k) ==> k <= i
  }

  /** A response byte arrived on a connection that had been handed out. */
  predicate Answered(q: seq<Event>) {
    exists j :: 0 <= j < |q| && q[j].FirstByte? && Connected(q[..j])
  }

  /** The request was written into a connection that gave nothing back. */
  predicate BlackHole(q: seq<Event>) {
    Wrote(q) && !Answered(q)
  }

  function Time(e: Event): Option<int> {
    match e
    case GotConn(_, _, now) => Some(now)
    case Started(_, now) => Some(now)
    case Done(_, now) => Some(now)
    case FirstByte(now) => Some(now)
    case GetConn => None
    case WroteRequest(_) => None
  }

  predicate InOrder(a: Event, b: Event) {
    Time(a).Some? && Time(b).Some? ==> Time(a).value <= Time(b).value
  }

  /** Clock readings never go back. */
  predicate Timely(es: seq<Event>) {
    forall i, j {:trigger InOrder(es[i], es[j])} :: 0 <= i < j < |es| ==> InOrder(es[i], es[j])
  }

  lemma ConnectedOfSnoc(q: seq<Event>, e: Event)
    ensures Connected(q + [e]) <==> Connected(q) || e.GotConn?
  {
    if e.GotConn? {
      assert (q + [e])[|q|] == e;
    }
    if i :| 0 <= i < |q| && q[i].GotConn? {
      assert (q + [e])[i] == q[i];
    }
  }

  lemma {:induction false} LastReusedOfSnoc(q: seq<Event>, e: Event)
    ensures LastReused(q + [e]) <==> if e.GotConn? then e.reused else LastReused(q)
  {
    var s := q + [e];
    assert forall i :: ConnAt(s, i) <==> ConnAt(q, i) || (i == |q| && e.GotConn?);
    assert forall i :: ReusedAt(s, i) <==> ReusedAt(q, i) || (i == |q| && e.GotConn? && e.reused);
    assert e.GotConn? ==> ConnAt(s, |q|);
    assert e.GotConn? && e.reused ==> ReusedAt(s, |q|);
  }

  lemma {:induction false} AnsweredOfSnoc(q: seq<Event>, e: Event)
    ensures Answered(q + [e]) <==> Answered(q) || (e.FirstByte? && Connected(q))
  {
    var s := q + [e];
    assert forall j :: 0 <= j <= |q| ==> s[..j] == q[..j];
    assert s[|q|] == e && q[..|q|] == q;
    assert forall j :: 0 <= j < |q| ==> s[j] == q[j];
  }

  lemma {:induction false} PlainMeaning(q: seq<Event>)
    requires GetConn !in q
    ensures var r := Run(q).request;
            && (r.wroteReq <==> Wrote(q))
            && (r.lastReused <==> LastReused(q))
            && (r.gotConnAt.Some? <==> Connected(q))
  {
    if q != [] {
      var init, e := q[..|q| - 1], q[|q| - 1];
      assert q == init + [e];
      PlainMeaning(init);
      ConnectedOfSnoc(init, e);
      LastReusedOfSnoc(init, e);
    }
  }

  /** Reuse and write, over every sequence of hook calls: exactly what happened since the last GetConn. */
  lemma {:induction false} RequestMeaning(es: seq<Event>)
    ensures var r := Run(es).request;
            && (r.wroteReq <==> Wrote(Current(es)))
            && (r.lastReused <==> LastReused(Current(es)))
            && (r.gotConnAt.Some? <==> Connected(Current(es)))
  {
    CurrentRequestOnly(es);
    PlainMeaning(Current(es));
  }

  predicate HandedAt(q: seq<Event>, now: int) {
    exists i :: 0 <= i < |q| && q[i].GotConn? && q[i].now == now
  }

  lemma {:induction false} ConnTimeIsHandedAt(q: seq<Event>)
    requires GetConn !in q
    ensures var at := Run(q).request.gotConnAt; at.Some? ==> HandedAt(q, at.value)
  {
    if q != [] {
      var init, e := q[..|q| - 1], q[|q| - 1];
      ConnTimeIsHandedAt(init);
      assert q[|init|] == e;
      assert forall i :: 0 <= i < |init| ==> q[i] == init[i];
    }
  }

  lemma ByteAfterConn(q: seq<Event>, e: Event, start: int)
    requires Timely(q + [e]) && e.FirstByte? && HandedAt(q, start)
    ensures Since(Some(start), e.now) >= 0
  {
    var i :| 0 <= i < |q| && q[i].GotConn? && q[i].now == start;
    assert InOrder((q + [e])[i], (q + [e])[|q|]);
  }

  lemma TtfbStep(q: seq<Event>, e: Event)
    requires GetConn !in q && e != GetConn && Timely(q + [e])
    requires Run(q).request.ttfb >= 0 <==> Answered(q)
    ensures Run(q + [e]).request.ttfb >= 0 <==> Answered(q + [e])
  {
    RunOfSnoc(q, e);
    PlainMeaning(q);
    AnsweredOfSnoc(q, e);
    ConnTimeIsHandedAt(q);
    var at := Run(q).request.gotConnAt;
    if e.FirstByte? && at.Some? {
      ByteAfterConn(q, e, at.value);
    }
  }

  lemma {:induction false} TtfbMeaning(q: seq<Event>)
    requires GetConn !in q && Timely(q)
    ensures Run(q).request.ttfb >= 0 <==> Answered(q)
  {
    if q != [] {
      var init, e := q[..|q| - 1], q[|q| - 1];
      TimelyPrefix(q, |q| - 1);
      TtfbMeaning(init);
      assert q == init + [e];
      TtfbStep(init, e);
    }
  }

  lemma {:induction false} ConnTime(q: seq<Event>, i: nat)
    requires GetConn !in q && ConnAt(q, i) && forall k :: i < k < |q| ==> !q[k].GotConn?
    ensures Run(q).request.gotConnAt == Some(q[i].now)
  {
    if i < |q| - 1 {
      ConnTime(q[..|q| - 1], i);
    }
  }

  /** The first-byte time runs from the connection last handed out before the last first byte to that byte. */
  lemma {:induction false} TtfbValue(q: seq<Event>, i: nat, j: nat)
    requires GetConn !in q && ConnAt(q, i) && i < j < |q| && q[j].FirstByte?
    requires forall k :: i < k < j ==> !q[k].GotConn?
    requires forall k :: j < k < |q| ==> !q[k].FirstByte?
    ensures Run(q).request.ttfb == Since(Some(q[i].now), q[j].now)
  {
    if j < |q| - 1 {
      TtfbValue(q[..|q| - 1], i, j);
    } else {
      ConnTime(q[..|q| - 1], i);
    }
  }

  lemma TimelySuffix(es: seq<Event>, k: nat)
    requires k <= |es| && Timely(es)
    ensures Timely(es[k..])
  {
    forall i, j | 0 <= i < j < |es| - k ensures InOrder(es[k..][i], es[k..][j]) {
      assert InOrder(es[k + i], es[k + j]);
    }
  }

  lemma TimelyPrefix(es: seq<Event>, k: nat)
    requires k <= |es| && Timely(es)
    ensures Timely(es[..k])
  {
    forall i, j | 0 <= i < j < k ensures InOrder(es[..k][i], es[..k][j]) {
      assert InOrder(es[i], es[j]);
    }
  }

  /** The black-hole signature, write logged with a first byte of -1, means exactly that since the last GetConn the
      request was written and no byte came back on its connection. */
  lemma {:induction false} BlackHoleIff(es: seq<Event>)
    requires Timely(es)
    ensures var f := Report(Run(es)); f.wroteRequest && f.ttfbMs == NOT_RECORDED <==> BlackHole(Current(es))
  {
    TimelySuffix(es, |es| - |Current(es)|);
    RequestMeaning(es);
    CurrentRequestOnly(es);
    TtfbMeaning(Current(es));
  }

  function Conns(es: seq<Event>, reused: bool): nat {
    if es == [] then 0
    else
      var e := es[|es| - 1];
      Conns(es[..|es| - 1], reused) + if e.GotConn? && e.reused == reused then 1 else 0
  }

  /** Over the whole fetch, each connection handed out is counted once, as reused or as new. */
  lemma {:induction false} CountersMeaning(es: seq<Event>)
    ensures Run(es).reusedConns == Conns(es, true) && Run(es).newConns == Conns(es, false)
    ensures Run(es).reusedConns + Run(es).newConns == |Handed(es)|
  {
    if es != [] {
      CountersMeaning(es[..|es| - 1]);
    }
  }

  /** The positions at which a connection was handed out. */
  function Handed(es: seq<Event>): (at: set<nat>)
    ensures forall i :: i in at <==> 0 <= i < |es| && es[i].GotConn?
  {
    if es == [] then {}
    else Handed(es[..|es| - 1]) + if es[|es| - 1].GotConn? then {|es| - 1} else {}
  }

  // ---- Idle time ----

  /** The connection last handed out is fresh, after a pooled one with this request that had an idle time. */
  ghost predicate StaleIdle(q: seq<Event>) {
    Connected(q) && !LastReused(q) && exists i :: IdleOf(q, i) && q[i].idle >= 0
  }

  /** The last pooled connection handed out. */
  predicate IdleOf(q: seq<Event>, i: int) {
    ReusedAt(q, i) && forall k :: i < k < |q| ==> !ReusedAt(q, k)
  }

  lemma {:induction false} IdleMeaning(q: seq<Event>)
    requires GetConn !in q
    ensures forall i :: IdleOf(q, i) ==> Run(q).request.lastIdle == q[i].idle
    ensures (forall i :: !ReusedAt(q, i)) ==> Run(q).request.lastIdle == UNSET
    ensures (exists i :: ReusedAt(q, i)) ==> exists i :: IdleOf(q, i)
  {
    if q != [] {
      var init, e := q[..|q| - 1], q[|q| - 1];
      assert q == init + [e];
      IdleMeaning(init);
      assert forall i :: 0 <= i < |init| ==> (ReusedAt(q, i) <==> ReusedAt(init, i));
      if ReusedAt(q, |init|) {
        assert IdleOf(q, |init|);
      } else {
        assert forall i :: IdleOf(q, i) <==> IdleOf(init, i);
        assert forall i :: ReusedAt(q, i) <==> ReusedAt(init, i);
      }
    }
  }

  /** A recorded idle time comes without a reused connection exactly when this request was handed a pooled connection
      and then a fresh one. */
  lemma {:induction false} IdleWithoutReuseIff(es: seq<Event>)
    ensures var f := Report(Run(es));
            f.lastConnIdleMs != NOT_RECORDED && !f.lastConnReused <==> StaleIdle(Current(es))
  {
    var q := Current(es);
    CurrentRequestOnly(es);
    RequestMeaning(es);
    IdleMeaning(q);
  }

  predicate OneConnEach(es: seq<Event>) {
    forall i, j :: 0 <= i < j < |es| && es[i].GotConn? && es[j].GotConn? ==> GetConn in es[i..j]
  }

  lemma OneConnSuffix(es: seq<Event>, k: nat, i: int, j: int)
    requires k <= |es| && OneConnEach(es) && GetConn !in es[k..]
    requires ConnAt(es[k..], i) && ConnAt(es[k..], j)
    ensures i >= j
  {
    assert es[k..][i] == es[k + i] && es[k..][j] == es[k + j];
    assert i < j ==> forall e :: e in es[k + i..k + j] ==> e in es[k..];
  }

  /** With at most one connection for each GetConn, a recorded idle time means a reused connection. */
  lemma {:induction false} IdleMeansReused(es: seq<Event>)
    requires OneConnEach(es)
    ensures var f := Report(Run(es)); f.lastConnIdleMs != NOT_RECORDED ==> f.lastConnReused
  {
    IdleWithoutReuseIff(es);
    var q := Current(es);
    if StaleIdle(q) {
      var i :| IdleOf(q, i) && q[i].idle >= 0;
      var j :| ConnAt(q, j) && i < j;
      OneConnSuffix(es, |es| - |q|, i, j);
    }
  }

  /** Without that, it need not: a fresh connection after a pooled one keeps the pooled one's idle time. */
  lemma StaleIdleWitness()
    ensures var f := Report(Run([GetConn, GotConn(true, 5_000_000, 0), GotConn(false, 0, 1)]));
            f.lastConnIdleMs == 5 && !f.lastConnReused
  {
  }

  // ---- Phases ----

  predicate DoneAt(p: Phase, q: seq<Event>, j: int) {
    0 <= j < |q| && q[j].Done? && q[j].phase == p
  }

  predicate StartedAt(p: Phase, q: seq<Event>, i: int) {
    0 <= i < |q| && q[i].Started? && q[i].phase == p
  }

  ghost predicate Starts(p: Phase, q: seq<Event>) {
    exists i :: StartedAt(p, q, i)
  }

  ghost predicate Completes(p: Phase, q: seq<Event>) {
    exists j :: DoneAt(p, q, j)
  }

  /** If the phase was completed, it was also started before some completion. */
  ghost predicate Paired(p: Phase, q: seq<Event>) {
    Completes(p, q) ==> exists i, j :: StartedAt(p, q, i) && DoneAt(p, q, j) && i < j
  }

  // a phase's clock after a request, from its start before
  function ClockAfter(p: Phase, c: PhaseClock, q: seq<Event>): PhaseClock {
    if q == [] then c
    else
      Ticked(p, ClockAfter(p, c, q[..|q| - 1]), q[|q| - 1])
  }

  lemma {:induction false} RunIsClockAfter(p: Phase, h: seq<Event>, q: seq<Event>)
    requires GetConn !in q
    ensures Run(h + [GetConn] + q).At(p) == ClockAfter(p, PhaseClock(UNSET, Run(h).At(p).start), q)
  {
    if q == [] {
      RunOfSnoc(h, GetConn);
      assert h + [GetConn] + q == h + [GetConn];
    } else {
      var init, e := q[..|q| - 1], q[|q| - 1];
      RunIsClockAfter(p, h, init);
      RunOfSnoc(h + [GetConn] + init, e);
      assert h + [GetConn] + init + [e] == h + [GetConn] + q;
    }
  }

  /** When the phase was last completed. */
  function LastDone(p: Phase, q: seq<Event>): Option<int> {
    if q == [] then None
    else
      var e := q[|q| - 1];
      if e.Done? && e.phase == p then Some(e.now) else LastDone(p, q[..|q| - 1])
  }

  lemma {:induction false} SnocAt(p: Phase, q: seq<Event>)
    requires q != []
    ensures var init, e := q[..|q| - 1], q[|q| - 1];
            && (Starts(p, q) <==> Starts(p, init) || (e.Started? && e.phase == p))
            && (Completes(p, q) <==> Completes(p, init) || (e.Done? && e.phase == p))
            && (Paired(p, q) <==> if e.Done? && e.phase == p then Starts(p, init) else Paired(p, init))
  {
    var init := q[..|q| - 1];
    assert forall i :: 0 <= i < |init| ==> (StartedAt(p, q, i) <==> StartedAt(p, init, i));
    assert forall i :: 0 <= i < |init| ==> (DoneAt(p, q, i) <==> DoneAt(p, init, i));
    assert forall i :: StartedAt(p, init, i) ==> StartedAt(p, q, i);
    assert forall i :: DoneAt(p, init, i) ==> DoneAt(p, q, i);
    var last := |init|;
    assert StartedAt(p, q, last) <==> q[last].Started? && q[last].phase == p;
    assert DoneAt(p, q, last) <==> q[last].Done? && q[last].phase == p;
  }

  /** What the start left over from earlier requests does to a phase. */
  lemma {:induction false} LeftoverStart(p: Phase, left: Option<int>, q: seq<Event>)
    ensures var c := ClockAfter(p, PhaseClock(UNSET, left), q);
            var base := ClockAfter(p, IDLE, q);
            && c.start == (if Starts(p, q) then base.start else left)
            && (Paired(p, q) ==> c.took == base.took)
            && (!Paired(p, q) ==> LastDone(p, q).Some? && c.took == Since(left, LastDone(p, q).value))
            && (!Starts(p, q) ==> base.start == None)
  {
    if q != [] {
      LeftoverStart(p, left, q[..|q| - 1]);
      SnocAt(p, q);
    }
  }

  lemma {:induction false} StartTime(p: Phase, c: PhaseClock, q: seq<Event>, i: nat)
    requires StartedAt(p, q, i) && forall k :: i < k < |q| ==> !StartedAt(p, q, k)
    ensures ClockAfter(p, c, q).start == Some(q[i].now)
  {
    if i < |q| - 1 {
      var init := q[..|q| - 1];
      assert forall k :: 0 <= k < |init| ==> (StartedAt(p, init, k) <==> StartedAt(p, q, k));
      StartTime(p, c, init, i);
      assert !StartedAt(p, q, |q| - 1);
    }
  }

  lemma {:induction false} ClockValue(p: Phase, c: PhaseClock, q: seq<Event>, i: nat, j: nat)
    requires StartedAt(p, q, i) && DoneAt(p, q, j) && i < j
    requires forall k :: i < k < j ==> !StartedAt(p, q, k)
    requires forall k :: j < k < |q| ==> !DoneAt(p, q, k)
    ensures ClockAfter(p, c, q).took == Since(Some(q[i].now), q[j].now)
  {
    var init := q[..|q| - 1];
    assert forall k :: 0 <= k < |init| ==> (StartedAt(p, init, k) <==> StartedAt(p, q, k));
    assert forall k :: 0 <= k < |init| ==> (DoneAt(p, init, k) <==> DoneAt(p, q, k));
    if j < |init| {
      ClockValue(p, c, init, i, j);
      assert !DoneAt(p, q, |init|);
    } else {
      StartTime(p, c, init, i);
    }
  }

  /** The logged milliseconds of a phase, with a history before the request. */
  function PhaseMillis(p: Phase, h: seq<Event>, q: seq<Event>): int {
    Report(Run(h + [GetConn] + q)).At(p)
  }

  /** A logged phase runs, after any history, from the last start before its last completion to that completion. */
  lemma {:induction false} PhaseValue(p: Phase, h: seq<Event>, q: seq<Event>, i: nat, j: nat)
    requires GetConn !in q && StartedAt(p, q, i) && DoneAt(p, q, j) && i < j
    requires forall k :: i < k < j ==> !StartedAt(p, q, k)
    requires forall k :: j < k < |q| ==> !DoneAt(p, q, k)
    ensures PhaseMillis(p, h, q) == Millis(Since(Some(q[i].now), q[j].now))
  {
    RunIsClockAfter(p, h, q);
    ClockValue(p, PhaseClock(UNSET, Run(h).At(p).start), q, i, j);
  }

  /** The first clock reading. */
  function FirstTime(q: seq<Event>): Option<int> {
    if q == [] then None else if Time(q[0]).Some? then Time(q[0]) else FirstTime(q[1..])
  }

  lemma {:induction false} FirstTimeIsLeast(q: seq<Event>, i: nat)
    requires Timely(q) && i < |q| && Time(q[i]).Some?
    ensures FirstTime(q).Some? && FirstTime(q).value <= Time(q[i]).value
  {
    if i > 0 {
      assert InOrder(q[0], q[i]);
      TimelySuffix(q, 1);
      if Time(q[0]).None? {
        FirstTimeIsLeast(q[1..], i - 1);
      }
    }
  }

  lemma {:induction false} FirstTimeOccurs(q: seq<Event>) returns (i: nat)
    requires FirstTime(q).Some?
    ensures i < |q| && Time(q[i]) == FirstTime(q)
  {
    if Time(q[0]).Some? {
      i := 0;
    } else {
      var k := FirstTimeOccurs(q[1..]);
      i := k + 1;
    }
  }

  lemma {:induction false} LastDoneOccurs(p: Phase, q: seq<Event>) returns (j: nat)
    requires LastDone(p, q).Some?
    ensures j < |q| && Time(q[j]) == LastDone(p, q)
  {
    var e := q[|q| - 1];
    if e.Done? && e.phase == p {
      j := |q| - 1;
    } else {
      j := LastDoneOccurs(p, q[..|q| - 1]);
    }
  }

  /** The start a history leaves behind is one of its clock readings. */
  lemma {:induction false} StartOccurs(p: Phase, h: seq<Event>) returns (i: nat)
    requires Run(h).At(p).start.Some?
    ensures i < |h| && Time(h[i]) == Run(h).At(p).start
  {
    var e := h[|h| - 1];
    if e.Started? && e.phase == p {
      i := |h| - 1;
    } else {
      i := StartOccurs(p, h[..|h| - 1]);
    }
  }

  /** From the request's first clock reading to the phase's last completion passes the longest duration there is. */
  predicate OutlastsDurations(p: Phase, q: seq<Event>) {
    && FirstTime(q).Some? && LastDone(p, q).Some?
    && Millis(Since(FirstTime(q), LastDone(p, q).value)) == Millis(MAX_DURATION)
  }

  lemma LongerIsNotLess(start: Option<int>, later: int, now: int)
    requires start.Some? ==> start.value <= later
    requires Millis(Since(Some(later), now)) == Millis(MAX_DURATION)
    ensures Millis(Since(start, now)) == Millis(MAX_DURATION)
  {
  }

  /** A start from an earlier request is not after the request's first reading. */
  lemma LeftoverIsEarlier(p: Phase, h: seq<Event>, q: seq<Event>)
    requires Timely(h + [GetConn] + q) && FirstTime(q).Some? && Run(h).At(p).start.Some?
    ensures Run(h).At(p).start.value <= FirstTime(q).value
  {
    var s := h + [GetConn] + q;
    var i := StartOccurs(p, h);
    var k := FirstTimeOccurs(q);
    assert s[i] == h[i] && s[|h| + 1 + k] == q[k];
    assert InOrder(s[i], s[|h| + 1 + k]);
  }

  lemma OneEarlierStart(p: Phase, t: int, q: seq<Event>)
    requires Timely(q) && FirstTime(q) == Some(t)
    ensures Timely([Started(p, t)] + [GetConn] + q)
  {
    var s := [Started(p, t)] + [GetConn] + q;
    forall i, j | 0 <= i < j < |s| ensures InOrder(s[i], s[j]) {
      if i >= 2 {
        assert s[i] == q[i - 2] && s[j] == q[j - 2];
        assert InOrder(q[i - 2], q[j - 2]);
      } else if j >= 2 && Time(q[j - 2]).Some? {
        FirstTimeIsLeast(q, j - 2);
      }
    }
  }

  /** The same phase is logged after every history that a clock can produce. */
  ghost predicate SameAfterAll(p: Phase, q: seq<Event>) {
    forall h :: Timely(h + [GetConn] + q) ==> PhaseMillis(p, h, q) == PhaseMillis(p, [], q)
  }

  /** DNS, connect and TLS: the logged phase is the same after every history exactly when the request, if it completed
      the phase, also started it before (or took longer than any duration can say). */
  lemma {:induction false} PhaseForgetsHistoryIff(p: Phase, q: seq<Event>)
    requires GetConn !in q && Timely(q)
    ensures SameAfterAll(p, q) <==> Paired(p, q) || OutlastsDurations(p, q)
    ensures Paired(p, q) ==> forall h :: PhaseMillis(p, h, q) == PhaseMillis(p, [], q)
  {
    PhaseFrom(p, [], q);
    forall h ensures Paired(p, q) ==> PhaseMillis(p, h, q) == PhaseMillis(p, [], q) {
      PhaseFrom(p, h, q);
    }
    if !Paired(p, q) {
      if OutlastsDurations(p, q) {
        forall h | Timely(h + [GetConn] + q) ensures PhaseMillis(p, h, q) == PhaseMillis(p, [], q) {
          PhaseFrom(p, h, q);
          if Run(h).At(p).start.Some? {
            LeftoverIsEarlier(p, h, q);
          }
          LongerIsNotLess(Run(h).At(p).start, FirstTime(q).value, LastDone(p, q).value);
        }
      } else {
        OrphanShowsHistory(p, q);
      }
    }
  }

  lemma OrphanShowsHistory(p: Phase, q: seq<Event>)
    requires GetConn !in q && Timely(q) && !Paired(p, q) && !OutlastsDurations(p, q)
    ensures !SameAfterAll(p, q)
  {
    PhaseFrom(p, [], q);
    var j := LastDoneOccurs(p, q);
    FirstTimeIsLeast(q, j);
    var h := [Started(p, FirstTime(q).value)];
    RunOfSnoc([], h[0]);
    assert [] + h == h;
    PhaseFrom(p, h, q);
    OneEarlierStart(p, FirstTime(q).value, q);
    assert PhaseMillis(p, h, q) != PhaseMillis(p, [], q);
  }

  /** A lookup started for one request and completed in the next: five milliseconds are logged for a request in which
      none was started, and without the earlier request the longest duration. */
  lemma StalePhaseWitness()
    ensures PhaseMillis(Dns, [GetConn, Started(Dns, 0)], [Done(Dns, 5_000_000)]) == 5
    ensures PhaseMillis(Dns, [], [Done(Dns, 5_000_000)]) == MAX_DURATION / NANOS_PER_MILLI
  {
    var q := [Done(Dns, 5_000_000)];
    RunOfSnoc([], GetConn);
    RunOfSnoc([GetConn], Started(Dns, 0));
    assert [] + [GetConn] == [GetConn] && [GetConn] + [Started(Dns, 0)] == [GetConn, Started(Dns, 0)];
    assert q[..0] == [] && LastDone(Dns, q) == Some(5_000_000);
    assert !Paired(Dns, q) by {
      assert DoneAt(Dns, q, 0);
    }
    PhaseFrom(Dns, [GetConn, Started(Dns, 0)], q);
    PhaseFrom(Dns, [], q);
  }

  lemma PhaseFrom(p: Phase, h: seq<Event>, q: seq<Event>)
    requires GetConn !in q
    ensures Paired(p, q) ==> PhaseMillis(p, h, q) == Millis(ClockAfter(p, IDLE, q).took)
    ensures !Paired(p, q) ==> LastDone(p, q).Some?
    ensures !Paired(p, q) ==> PhaseMillis(p, h, q) == Millis(Since(Run(h).At(p).start, LastDone(p, q).value))
  {
    RunIsClockAfter(p, h, q);
    LeftoverStart(p, Run(h).At(p).start, q);
  }
}

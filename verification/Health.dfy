/** The health hysteresis of one pod and the liveness it writes
    (src/calinix/upstream/health.rs). */
module Health {
  import opened Wrappers
  import opened Bitmap
  import opened FlatRegistry
  import opened ShardedIndex

  datatype HealthResult = Healthy | Unhealthy

  /** The fields of `PodHealthState`; the counters are u8. */
  datatype Counters = Counters(successes: nat, failures: nat, markedAlive: bool)

  const U8_MAX: nat := 255

  /** `saturating_add(1)` on u8 */
  function Bump(count: nat): nat {
    if count >= U8_MAX then U8_MAX else count + 1
  }

  /** `observe` as a function of the state. */
  function Observe(s: Counters, result: HealthResult, healthyThreshold: nat, unhealthyThreshold: nat): (Counters, Option<bool>) {
    match result
    case Healthy =>
      var n := Bump(s.successes);
      if !s.markedAlive && n >= healthyThreshold then (Counters(n, 0, true), Some(true))
      else (Counters(n, 0, s.markedAlive), None)
    case Unhealthy =>
      var n := Bump(s.failures);
      if s.markedAlive && n >= unhealthyThreshold then (Counters(0, n, false), Some(false))
      else (Counters(0, n, s.markedAlive), None)
  }

  class PodHealthState {
    var consecutiveSuccesses: nat
    var consecutiveFailures: nat
    var markedAlive: bool

    ghost function State(): Counters
      reads this
    {
      Counters(consecutiveSuccesses, consecutiveFailures, markedAlive)
    }

    constructor ()
      ensures State() == Initial()
    {
      consecutiveSuccesses, consecutiveFailures, markedAlive := 0, 0, false;
    }

    method ObserveResult(result: HealthResult, healthyThreshold: nat, unhealthyThreshold: nat) returns (change: Option<bool>)
      modifies this
      ensures (State(), change) == Observe(old(State()), result, healthyThreshold, unhealthyThreshold)
    {
      match result {
        case Healthy =>
          consecutiveSuccesses := Bump(consecutiveSuccesses);
          consecutiveFailures := 0;
          if !markedAlive && consecutiveSuccesses >= healthyThreshold {
            markedAlive := true;
            return Some(true);
          }
        case Unhealthy =>
          consecutiveFailures := Bump(consecutiveFailures);
          consecutiveSuccesses := 0;
          if markedAlive && consecutiveFailures >= unhealthyThreshold {
            markedAlive := false;
            return Some(false);
          }
      }
      change := None;
    }
  }

  function Initial(): Counters {
    Counters(0, 0, false)
  }

  // One pod over a whole trace

  function StateAfter(trace: seq<HealthResult>, ht: nat, ut: nat): Counters {
    if trace == [] then Initial()
    else Observe(StateAfter(trace[..|trace| - 1], ht, ut), trace[|trace| - 1], ht, ut).0
  }

  /** The transitions reported along the trace, in order. */
  function Emitted(trace: seq<HealthResult>, ht: nat, ut: nat): seq<bool> {
    if trace == [] then []
    else
      var init := trace[..|trace| - 1];
      match Observe(StateAfter(init, ht, ut), trace[|trace| - 1], ht, ut).1
      case Some(alive) => Emitted(init, ht, ut) + [alive]
      case None => Emitted(init, ht, ut)
  }

  /** The number of results equal to `r` at the end of the trace, unbounded. */
  function RunLength(trace: seq<HealthResult>, r: HealthResult): nat {
    if trace != [] && trace[|trace| - 1] == r then 1 + RunLength(trace[..|trace| - 1], r) else 0
  }

  lemma {:induction false} RunLengthIs(trace: seq<HealthResult>, r: HealthResult, k: nat)
    requires k <= |trace|
    ensures k <= RunLength(trace, r) <==> forall i :: |trace| - k <= i < |trace| ==> trace[i] == r
    ensures RunLength(trace, r) <= |trace|
    decreases |trace|
  {
    if trace != [] {
      var init := trace[..|trace| - 1];
      RunLengthIs(init, r, if k == 0 then 0 else k - 1);
      if k > 0 && trace[|trace| - 1] == r {
        assert forall i :: |trace| - k <= i < |init| ==> init[i] == trace[i];
      }
    }
  }

  /** The outcome of the most recent completed run: going back from the end, the first point at
      which `ht` successes or `ut` failures in a row had just been seen; dead before any. */
  function LatestRun(trace: seq<HealthResult>, ht: nat, ut: nat): bool {
    if trace == [] then false
    else if RunLength(trace, Healthy) >= ht && RunLength(trace, Healthy) > 0 then true
    else if RunLength(trace, Unhealthy) >= ut && RunLength(trace, Unhealthy) > 0 then false
    else LatestRun(trace[..|trace| - 1], ht, ut)
  }

  /** A threshold of 0 acts as 1. */
  function AtLeastOne(threshold: nat): nat {
    if threshold == 0 then 1 else threshold
  }

  /** Just after its first m results the trace had seen k results r in a row. */
  ghost predicate Completed(trace: seq<HealthResult>, m: nat, r: HealthResult, k: nat) {
    k <= m <= |trace| && forall i :: m - k <= i < m ==> trace[i] == r
  }

  /** Without recursion: at some point a run of successes was complete, and no run of failures has
      been complete since. */
  lemma {:induction false} LatestRunIs(trace: seq<HealthResult>, ht: nat, ut: nat)
    ensures LatestRun(trace, ht, ut) <==>
      exists m: nat ::
        && Completed(trace, m, Healthy, AtLeastOne(ht))
        && forall later: nat :: later > m ==> !Completed(trace, later, Unhealthy, AtLeastOne(ut))
    decreases |trace|
  {
    if trace != [] {
      var n := |trace|;
      var init := trace[..n - 1];
      LatestRunIs(init, ht, ut);
      CompletedNow(trace, Healthy, AtLeastOne(ht));
      CompletedNow(trace, Unhealthy, AtLeastOne(ut));
      forall m: nat, r, k: nat | m < n ensures Completed(trace, m, r, k) <==> Completed(init, m, r, k) {
      }
    }
  }

  lemma CompletedNow(trace: seq<HealthResult>, r: HealthResult, k: nat)
    requires k >= 1
    ensures Completed(trace, |trace|, r, k) <==> RunLength(trace, r) >= k
  {
    if k <= |trace| {
      RunLengthIs(trace, r, k);
    } else {
      RunLengthIs(trace, r, 0);
    }
  }

  function Capped(count: nat): nat {
    if count >= U8_MAX then U8_MAX else count
  }

  /** For u8 thresholds the saturating counters decide exactly as unbounded run lengths would. */
  lemma {:induction false} MarkedIsLatestRun(trace: seq<HealthResult>, ht: nat, ut: nat)
    requires ht <= 255 && ut <= 255
    ensures var (s, up, down) := (StateAfter(trace, ht, ut), RunLength(trace, Healthy), RunLength(trace, Unhealthy));
      && s.markedAlive == LatestRun(trace, ht, ut)
      && s.successes == (if up < 255 then up else 255)
      && s.failures == (if down < 255 then down else 255)
    decreases |trace|
  {
    if trace != [] {
      MarkedIsLatestRun(trace[..|trace| - 1], ht, ut);
    }
  }

  /** A reported transition is the new mark, and differs from the old one. */
  lemma ObserveMark(s: Counters, result: HealthResult, ht: nat, ut: nat)
    ensures var (next, change) := Observe(s, result, ht, ut);
      if change.Some? then next.markedAlive == change.value && change.value != s.markedAlive
      else next.markedAlive == s.markedAlive
  {
  }

  ghost predicate Alternates(transitions: seq<bool>) {
    forall i :: 0 <= i < |transitions| ==> (transitions[i] <==> i % 2 == 0)
  }

  lemma AlternatesNext(transitions: seq<bool>, alive: bool)
    requires Alternates(transitions) && (alive <==> |transitions| % 2 == 0)
    ensures Alternates(transitions + [alive])
    ensures alive <==> |transitions + [alive]| % 2 == 1
  {
  }

  /** Reported transitions alternate, starting with alive, and the last one is the current mark. */
  lemma {:induction false} TransitionsAlternate(trace: seq<HealthResult>, ht: nat, ut: nat)
    ensures Alternates(Emitted(trace, ht, ut))
    ensures StateAfter(trace, ht, ut).markedAlive <==> |Emitted(trace, ht, ut)| % 2 == 1
    decreases |trace|
  {
    if trace == [] {
      NothingEmitted(ht, ut);
    } else {
      hide Observe, Alternates;
      var init := trace[..|trace| - 1];
      var before := StateAfter(init, ht, ut);
      TransitionsAlternate(init, ht, ut);
      ObserveMark(before, trace[|trace| - 1], ht, ut);
      if Observe(before, trace[|trace| - 1], ht, ut).1.Some? {
        AlternatesNext(Emitted(init, ht, ut), !before.markedAlive);
      }
    }
  }

  lemma NothingEmitted(ht: nat, ut: nat)
    ensures Emitted([], ht, ut) == [] && Alternates([]) && !StateAfter([], ht, ut).markedAlive
  {
  }

  // All pods and the alive bitmap

  /** The poller's states and the alive pods of the registry. */
  datatype Monitor = Monitor(states: seq<Counters>, alive: set<nat>)

  datatype Report = Report(pod: nat, result: HealthResult)

  function Fresh(podCount: nat): Monitor {
    Monitor(seq(podCount, _ => Initial()), {})
  }

  function Write(alive: set<nat>, pod: nat, change: Option<bool>): set<nat> {
    match change
    case Some(true) => alive + Storable(pod)
    case Some(false) => alive - {pod}
    case None => alive
  }

  /** `apply_health_result`: results for unknown pods are dropped. */
  function Receive(m: Monitor, r: Report, ht: nat, ut: nat): Monitor {
    if r.pod >= |m.states| then m
    else
      var (next, change) := Observe(m.states[r.pod], r.result, ht, ut);
      Monitor(m.states[r.pod := next], Write(m.alive, r.pod, change))
  }

  function ReceiveAll(m: Monitor, reports: seq<Report>, ht: nat, ut: nat): Monitor {
    if reports == [] then m
    else Receive(ReceiveAll(m, reports[..|reports| - 1], ht, ut), reports[|reports| - 1], ht, ut)
  }

  ghost predicate AliveIsMarked(m: Monitor) {
    forall p: nat :: p in m.alive <==> p < MAX_PODS && p < |m.states| && m.states[p].markedAlive
  }

  lemma ReceiveKeepsAliveMarked(m: Monitor, r: Report, ht: nat, ut: nat)
    requires AliveIsMarked(m)
    ensures AliveIsMarked(Receive(m, r, ht, ut))
  {
  }

  /** While only the poller writes liveness, the alive pods are the marked ones, over any
      interleaving of the pods' results. */
  lemma {:induction false} PollerOwnsLiveness(podCount: nat, reports: seq<Report>, ht: nat, ut: nat)
    ensures AliveIsMarked(ReceiveAll(Fresh(podCount), reports, ht, ut))
  {
    hide Receive, AliveIsMarked;
    var m := Fresh(podCount);
    if reports == [] {
      NobodyMarked(podCount);
    } else {
      var init := reports[..|reports| - 1];
      PollerOwnsLiveness(podCount, init, ht, ut);
      ReceiveKeepsAliveMarked(ReceiveAll(m, init, ht, ut), reports[|reports| - 1], ht, ut);
    }
  }

  lemma NobodyMarked(podCount: nat)
    ensures AliveIsMarked(Fresh(podCount))
  {
  }

  /** The results of one pod inside an interleaved list of reports. */
  function TraceOf(reports: seq<Report>, pod: nat): seq<HealthResult> {
    if reports == [] then []
    else
      var init, last := TraceOf(reports[..|reports| - 1], pod), reports[|reports| - 1];
      if last.pod == pod then init + [last.result] else init
  }

  /** Pods do not disturb each other: each state depends on its own trace only. */
  lemma {:induction false} StatesFollowOwnTrace(podCount: nat, reports: seq<Report>, ht: nat, ut: nat, pod: nat)
    requires pod < podCount
    ensures var m := ReceiveAll(Fresh(podCount), reports, ht, ut);
      |m.states| == podCount && m.states[pod] == StateAfter(TraceOf(reports, pod), ht, ut)
  {
    hide Observe;
    if reports != [] {
      var init, last := reports[..|reports| - 1], reports[|reports| - 1];
      StatesFollowOwnTrace(podCount, init, ht, ut, pod);
      if last.pod == pod {
        var trace := TraceOf(init, pod) + [last.result];
        assert trace[..|trace| - 1] == TraceOf(init, pod);
      }
    }
  }

  /** End to end: a pod is alive exactly when its latest completed run was one of successes. */
  lemma AliveIsLatestRun(podCount: nat, reports: seq<Report>, ht: nat, ut: nat, pod: nat)
    requires pod < podCount && pod < 256 && ht <= 255 && ut <= 255
    ensures pod in ReceiveAll(Fresh(podCount), reports, ht, ut).alive
      <==> LatestRun(TraceOf(reports, pod), ht, ut)
  {
    PollerOwnsLiveness(podCount, reports, ht, ut);
    StatesFollowOwnTrace(podCount, reports, ht, ut, pod);
    MarkedIsLatestRun(TraceOf(reports, pod), ht, ut);
  }

  // A second writer

  /** The alive bitmap is also written when a pod registers, shuts down or answers a forwarded
      request, without a word to the poller. */
  datatype Event = Polled(report: Report) | Outside(pod: nat, alive: bool)

  function Happen(m: Monitor, e: Event, ht: nat, ut: nat): Monitor {
    match e
    case Polled(report) => Receive(m, report, ht, ut)
    case Outside(pod, alive) => m.(alive := Write(m.alive, pod, Some(alive)))
  }

  function After(m: Monitor, events: seq<Event>, ht: nat, ut: nat): Monitor {
    if events == [] then m
    else Happen(After(m, events[..|events| - 1], ht, ut), events[|events| - 1], ht, ut)
  }

  function ReportsOf(events: seq<Event>): seq<Report> {
    if events == [] then []
    else
      var init := ReportsOf(events[..|events| - 1]);
      match events[|events| - 1]
      case Polled(report) => init + [report]
      case Outside(_, _) => init
  }

  /** Writes from outside never reach the poller's states. */
  lemma {:induction false} StatesIgnoreOutside(m: Monitor, events: seq<Event>, ht: nat, ut: nat)
    ensures After(m, events, ht, ut).states == ReceiveAll(m, ReportsOf(events), ht, ut).states
    decreases |events|
  {
    hide Observe, Write;
    if events != [] {
      var n := |events| - 1;
      StatesIgnoreOutside(m, events[..n], ht, ut);
      match events[n] {
        case Polled(report) =>
          var reports := ReportsOf(events[..n]);
          assert (reports + [report])[..|reports|] == reports;
          assert ReceiveAll(m, reports + [report], ht, ut) == Receive(ReceiveAll(m, reports, ht, ut), report, ht, ut);
        case Outside(_, _) =>
      }
    }
  }

  /** The k-th event writes the pod's alive bit: from outside, or by a transition of the poller. */
  ghost predicate Writes(m: Monitor, events: seq<Event>, k: nat, pod: nat, ht: nat, ut: nat) {
    && k < |events|
    && match events[k]
       case Outside(p, _) => p == pod
       case Polled(report) => report.pod == pod && Transition(After(m, events[..k], ht, ut), report, ht, ut)
  }

  ghost predicate Transition(m: Monitor, report: Report, ht: nat, ut: nat) {
    report.pod < |m.states| && Observe(m.states[report.pod], report.result, ht, ut).1.Some?
  }

  /** The last write of the pod's alive bit is the k-th event, and comes from outside. */
  ghost predicate Overridden(m: Monitor, events: seq<Event>, k: nat, pod: nat, ht: nat, ut: nat) {
    && k < |events| && events[k].Outside? && events[k].pod == pod
    && forall later: nat :: k < later ==> !Writes(m, events, later, pod, ht, ut)
  }

  /** One event changes the bit of a pod only by writing it, and then sets it as the writer says. */
  lemma HappenAlive(m: Monitor, e: Event, pod: nat, ht: nat, ut: nat)
    requires pod < |m.states| && pod < MAX_PODS
    ensures var n := Happen(m, e, ht, ut);
      && |n.states| == |m.states|
      && match e
         case Outside(p, alive) =>
           n.states == m.states && (pod in n.alive <==> if p == pod then alive else pod in m.alive)
         case Polled(report) =>
           if report.pod == pod && Transition(m, report, ht, ut) then pod in n.alive <==> n.states[pod].markedAlive
           else (pod in n.alive <==> pod in m.alive) && n.states[pod].markedAlive == m.states[pod].markedAlive
  {
  }

  /** With both writers, from any start in which bit and mark agree: the bit is what the last write
      from outside made it if no transition of the poller followed, and the mark otherwise. */
  lemma {:induction false} LastWriterDecides(m: Monitor, events: seq<Event>, ht: nat, ut: nat, pod: nat)
    requires pod < |m.states| && pod < MAX_PODS && (pod in m.alive <==> m.states[pod].markedAlive)
    ensures var n := After(m, events, ht, ut);
      && |n.states| == |m.states|
      && (forall k: nat :: Overridden(m, events, k, pod, ht, ut) ==> (pod in n.alive <==> events[k].alive))
      && ((forall k: nat :: !Overridden(m, events, k, pod, ht, ut)) ==> (pod in n.alive <==> n.states[pod].markedAlive))
    decreases |events|
  {
    hide Happen, Transition;
    if events != [] {
      var last := |events| - 1;
      var init := events[..last];
      LastWriterDecides(m, init, ht, ut, pod);
      HappenAlive(After(m, init, ht, ut), events[last], pod, ht, ut);
      EarlierEvents(m, events, pod, ht, ut);
      var n := After(m, events, ht, ut);
      forall k: nat | Overridden(m, events, k, pod, ht, ut) ensures pod in n.alive <==> events[k].alive {
        if k < last {
          assert Overridden(m, init, k, pod, ht, ut) && !Writes(m, events, last, pod, ht, ut);
          assert init[k] == events[k];
        }
      }
      if Writes(m, events, last, pod, ht, ut) && events[last].Outside? {
        assert Overridden(m, events, last, pod, ht, ut);
      }
    }
  }

  /** What an event did does not depend on the events after it. */
  lemma EarlierEvents(m: Monitor, events: seq<Event>, pod: nat, ht: nat, ut: nat)
    requires events != []
    ensures var last := |events| - 1;
      && (forall k: nat :: k < last ==>
            (Writes(m, events, k, pod, ht, ut) <==> Writes(m, events[..last], k, pod, ht, ut)))
      && (forall k: nat :: k < last ==>
            (Overridden(m, events, k, pod, ht, ut) <==>
               Overridden(m, events[..last], k, pod, ht, ut) && !Writes(m, events, last, pod, ht, ut)))
  {
    hide After, Transition;
    var last := |events| - 1;
    var init := events[..last];
    forall k: nat | k < last
      ensures Writes(m, events, k, pod, ht, ut) <==> Writes(m, init, k, pod, ht, ut)
    {
      assert init[..k] == events[..k] && init[k] == events[k];
    }
  }

  /** Bit and mark of a pod agree exactly when no write from outside is the last one, or that write
      set the bit to the mark. */
  lemma AliveFollowsPollerExactly(m: Monitor, events: seq<Event>, ht: nat, ut: nat, pod: nat)
    requires pod < |m.states| && pod < MAX_PODS && (pod in m.alive <==> m.states[pod].markedAlive)
    ensures var n := After(m, events, ht, ut);
      && |n.states| == |m.states|
      && ((pod in n.alive <==> n.states[pod].markedAlive) <==>
            forall k: nat :: Overridden(m, events, k, pod, ht, ut) ==> events[k].alive == n.states[pod].markedAlive)
  {
    hide After, Overridden;
    LastWriterDecides(m, events, ht, ut, pod);
  }

  ghost predicate OnlyResult(reports: seq<Report>, pod: nat, r: HealthResult) {
    forall i :: 0 <= i < |reports| && reports[i].pod == pod ==> reports[i].result == r
  }

  /** Failed checks alone clear an alive pod exactly when the poller has it marked and they complete
      the threshold. */
  lemma {:induction false} FailuresClearExactlyMarked(m: Monitor, reports: seq<Report>, ht: nat, ut: nat, pod: nat)
    requires pod < |m.states| && pod in m.alive && m.states[pod].failures <= U8_MAX
    requires OnlyResult(reports, pod, Unhealthy)
    ensures var n, count := ReceiveAll(m, reports, ht, ut), |TraceOf(reports, pod)|;
      && |n.states| == |m.states|
      && n.states[pod].failures == Capped(m.states[pod].failures + count)
      && (pod !in n.alive <==> m.states[pod].markedAlive && count > 0 && Capped(m.states[pod].failures + count) >= ut)
      && (n.states[pod].markedAlive <==> m.states[pod].markedAlive && pod in n.alive)
    decreases |reports|
  {
    if reports != [] {
      FailuresClearExactlyMarked(m, reports[..|reports| - 1], ht, ut, pod);
    }
  }

  /** Successful checks alone revive a pod that is not alive exactly when the poller does not have
      it marked and they complete the threshold. */
  lemma {:induction false} SuccessesReviveExactlyUnmarked(m: Monitor, reports: seq<Report>, ht: nat, ut: nat, pod: nat)
    requires pod < |m.states| && pod < MAX_PODS && pod !in m.alive && m.states[pod].successes <= U8_MAX
    requires OnlyResult(reports, pod, Healthy)
    ensures var n, count := ReceiveAll(m, reports, ht, ut), |TraceOf(reports, pod)|;
      && |n.states| == |m.states|
      && n.states[pod].successes == Capped(m.states[pod].successes + count)
      && (pod in n.alive <==> !m.states[pod].markedAlive && count > 0 && Capped(m.states[pod].successes + count) >= ht)
      && (n.states[pod].markedAlive <==> m.states[pod].markedAlive || pod in n.alive)
    decreases |reports|
  {
    if reports != [] {
      SuccessesReviveExactlyUnmarked(m, reports[..|reports| - 1], ht, ut, pod);
    }
  }

  /** Both disagreements are reached from the start: a forwarded request makes a pod alive that the
      poller never marked, and a shutdown event clears a pod that it did mark. */
  lemma OutsideWritesStrand(podCount: nat, pod: nat, results: seq<HealthResult>, ht: nat, ut: nat)
    requires pod < podCount && pod < MAX_PODS && LatestRun(results, ht, ut) && ht <= U8_MAX && ut <= U8_MAX
    ensures var m := After(Fresh(podCount), [Outside(pod, true)], ht, ut);
      pod < |m.states| && pod in m.alive && !m.states[pod].markedAlive
    ensures var m := After(Fresh(podCount), PollsOf(pod, results) + [Outside(pod, false)], ht, ut);
      pod < |m.states| && pod !in m.alive && m.states[pod].markedAlive
  {
    var polls := PollsOf(pod, results);
    assert [Outside(pod, true)][..0] == [];
    assert (polls + [Outside(pod, false)])[..|polls|] == polls;
    PollsReports(pod, results);
    StatesIgnoreOutside(Fresh(podCount), polls, ht, ut);
    StatesFollowOwnTrace(podCount, ReportsOf(polls), ht, ut, pod);
    MarkedIsLatestRun(results, ht, ut);
  }

  function PollsOf(pod: nat, results: seq<HealthResult>): seq<Event> {
    if results == [] then []
    else PollsOf(pod, results[..|results| - 1]) + [Polled(Report(pod, results[|results| - 1]))]
  }

  lemma OneMorePoll(events: seq<Event>, report: Report, pod: nat)
    ensures ReportsOf(events + [Polled(report)]) == ReportsOf(events) + [report]
    ensures report.pod == pod ==>
      TraceOf(ReportsOf(events) + [report], pod) == TraceOf(ReportsOf(events), pod) + [report.result]
  {
    assert (events + [Polled(report)])[..|events|] == events;
    var reports := ReportsOf(events);
    assert (reports + [report])[..|reports|] == reports;
  }

  lemma NoPolls(pod: nat)
    ensures TraceOf(ReportsOf([]), pod) == []
  {
  }

  lemma {:induction false} PollsReports(pod: nat, results: seq<HealthResult>)
    ensures TraceOf(ReportsOf(PollsOf(pod, results)), pod) == results
    decreases |results|
  {
    hide ReportsOf, TraceOf;
    if results == [] {
      NoPolls(pod);
    } else {
      var n := |results| - 1;
      PollsReports(pod, results[..n]);
      OneMorePoll(PollsOf(pod, results[..n]), Report(pod, results[n]), pod);
    }
  }

  /** Nothing the poller hears can undo the disagreements: a pod made alive while unmarked survives
      any number of failed checks, one shut down while marked any number of successful ones. */
  lemma StrandedForever(podCount: nat, pod: nat, results: seq<HealthResult>, reports: seq<Report>, ht: nat, ut: nat)
    requires pod < podCount && pod < MAX_PODS && LatestRun(results, ht, ut) && ht <= U8_MAX && ut <= U8_MAX
    ensures OnlyResult(reports, pod, Unhealthy) ==>
      var m := After(Fresh(podCount), [Outside(pod, true)], ht, ut);
      pod in ReceiveAll(m, reports, ht, ut).alive
    ensures OnlyResult(reports, pod, Healthy) ==>
      var m := After(Fresh(podCount), PollsOf(pod, results) + [Outside(pod, false)], ht, ut);
      pod !in ReceiveAll(m, reports, ht, ut).alive
  {
    OutsideWritesStrand(podCount, pod, results, ht, ut);
    var a := After(Fresh(podCount), [Outside(pod, true)], ht, ut);
    var b := After(Fresh(podCount), PollsOf(pod, results) + [Outside(pod, false)], ht, ut);
    StatesCapped(podCount, [Outside(pod, true)], ht, ut, pod);
    StatesCapped(podCount, PollsOf(pod, results) + [Outside(pod, false)], ht, ut, pod);
    if OnlyResult(reports, pod, Unhealthy) {
      FailuresClearExactlyMarked(a, reports, ht, ut, pod);
    }
    if OnlyResult(reports, pod, Healthy) {
      SuccessesReviveExactlyUnmarked(b, reports, ht, ut, pod);
    }
  }

  lemma StatesCapped(podCount: nat, events: seq<Event>, ht: nat, ut: nat, pod: nat)
    requires pod < podCount && ht <= U8_MAX && ut <= U8_MAX
    ensures var m := After(Fresh(podCount), events, ht, ut);
      && |m.states| == podCount
      && m.states[pod].failures <= U8_MAX && m.states[pod].successes <= U8_MAX
  {
    hide After, Observe;
    StatesIgnoreOutside(Fresh(podCount), events, ht, ut);
    StatesFollowOwnTrace(podCount, ReportsOf(events), ht, ut, pod);
    MarkedIsLatestRun(TraceOf(ReportsOf(events), pod), ht, ut);
  }

  /** End to end with both writers: a pod is alive as the last write from outside says if no
      transition followed it, and otherwise exactly when its own latest completed run was one of
      successes. */
  lemma AliveIsLastWrite(podCount: nat, events: seq<Event>, ht: nat, ut: nat, pod: nat)
    requires pod < podCount && pod < MAX_PODS && ht <= U8_MAX && ut <= U8_MAX
    ensures var (m, alive) := (Fresh(podCount), After(Fresh(podCount), events, ht, ut).alive);
      && (forall k: nat :: Overridden(m, events, k, pod, ht, ut) ==> (pod in alive <==> events[k].alive))
      && ((forall k: nat :: !Overridden(m, events, k, pod, ht, ut)) ==>
            (pod in alive <==> LatestRun(TraceOf(ReportsOf(events), pod), ht, ut)))
  {
    hide After, Overridden, Observe;
    LastWriterDecides(Fresh(podCount), events, ht, ut, pod);
    StatesIgnoreOutside(Fresh(podCount), events, ht, ut);
    StatesFollowOwnTrace(podCount, ReportsOf(events), ht, ut, pod);
    MarkedIsLatestRun(TraceOf(ReportsOf(events), pod), ht, ut);
  }

  // The method on the real objects

  ghost predicate Separate(states: array<PodHealthState>)
    reads states
  {
    forall i, j :: 0 <= i < j < states.Length ==> states[i] != states[j]
  }

  ghost function Marks(states: array<PodHealthState>): seq<Counters>
    reads states, set i | 0 <= i < states.Length :: states[i]
  {
    seq(states.Length, i requires 0 <= i < states.Length
      reads states, set i | 0 <= i < states.Length :: states[i] => states[i].State())
  }

  method ApplyHealthResult(indexer: ShardedBlockIndexer, states: array<PodHealthState>, pod: nat, result: HealthResult,
                           healthyThreshold: nat, unhealthyThreshold: nat)
    requires indexer.Valid() && Separate(states)
    modifies indexer, indexer.shards, set i | 0 <= i < states.Length :: states[i]
    ensures indexer.Valid()
    ensures Monitor(Marks(states), indexer.State().alive) ==
      Receive(old(Monitor(Marks(states), indexer.State().alive)), Report(pod, result), healthyThreshold, unhealthyThreshold)
    ensures indexer.State().flat == old(indexer.State().flat)
    ensures var revived := pod < states.Length && !old(Marks(states))[pod].markedAlive && Marks(states)[pod].markedAlive;
      indexer.podCount == if revived && pod >= old(indexer.podCount) then pod + 1 else old(indexer.podCount)
  {
    hide FlatOf, HostBitmap.Pods;
    if pod >= states.Length {
      return;
    }
    ghost var before, s := Marks(states), indexer.State();
    var change := states[pod].ObserveResult(result, healthyThreshold, unhealthyThreshold);
    assert Marks(states) == before[pod := Observe(before[pod], result, healthyThreshold, unhealthyThreshold).0];
    if change.Some? {
      if change.value {
        RunTwo(s, ObservePod(pod), SetAlive(pod));
        indexer.MarkAlive(pod);
      } else {
        indexer.Shutdown(pod);
      }
    }
  }
}

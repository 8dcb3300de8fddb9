/** In-flight counters and admission (src/calinix/upstream/load.rs, the capacity check of
    src/calinix/routing/filter.rs).  The class holds the counters; the protocol below interleaves
    the atomic operations of many requests on them. */
module Load {
  import opened Sets

  class LoadState {
    const inflight: array<nat>

    constructor (podCount: nat)
      ensures fresh(inflight) && inflight.Length == podCount
      ensures forall p :: 0 <= p < podCount ==> inflight[p] == 0
    {
      inflight := new nat[podCount](_ => 0);
    }

    predicate CanAccept(pod: nat, maxConns: nat)
      reads this, inflight
    {
      pod < inflight.Length && inflight[pod] < maxConns
    }

    /** `track`; a true result is the guard. */
    method Track(pod: nat) returns (guarded: bool)
      modifies inflight
      ensures guarded <==> pod < inflight.Length
      ensures inflight[..] == if guarded then old(inflight[..])[pod := old(inflight[pod]) + 1] else old(inflight[..])
    {
      if pod >= inflight.Length {
        return false;
      }
      inflight[pod] := inflight[pod] + 1;
      guarded := true;
    }

    /** `decrement`, run when a guard is dropped; saturates at zero. */
    method Decrement(pod: nat)
      modifies inflight
      ensures inflight[..] ==
        if pod < inflight.Length then
          old(inflight[..])[pod := if old(inflight[pod]) == 0 then 0 else old(inflight[pod]) - 1]
        else old(inflight[..])
    {
      if pod < inflight.Length {
        inflight[pod] := Saturating(inflight[pod]);
      }
    }
  }

  function Saturating(count: nat): nat {
    if count == 0 then 0 else count - 1
  }

  // Many requests at once

  /** A request has either passed the capacity check of some pods and tracked none yet, or holds
      the guard of one pod. */
  datatype Request = Passed(pods: set<nat>) | Holding(pod: nat)

  datatype Admission = Admission(inflight: seq<nat>, requests: map<nat, Request>)

  /** Atomic operations: one capacity check, one `track`, a guard dropped, a request that ends
      without tracking anything. */
  datatype Action =
    | Check(id: nat, pod: nat)
    | TrackPod(id: nat, pod: nat)
    | DropGuard(id: nat)
    | Abandon(id: nat)

  predicate Enabled(s: Admission, a: Action) {
    match a
    case Check(id, pod) => id !in s.requests || s.requests[id].Passed?
    case TrackPod(id, pod) => id in s.requests && s.requests[id].Passed? && pod in s.requests[id].pods
    case DropGuard(id) => id in s.requests && s.requests[id].Holding?
    case Abandon(id) => id in s.requests && s.requests[id].Passed?
  }

  function Next(s: Admission, a: Action, maxConns: seq<nat>): Admission
    requires Enabled(s, a) && |maxConns| == |s.inflight|
  {
    match a
    case Check(id, pod) =>
      var passed := if id in s.requests then s.requests[id].pods else {};
      var more := if pod < |s.inflight| && s.inflight[pod] < maxConns[pod] then passed + {pod} else passed;
      s.(requests := s.requests[id := Passed(more)])
    case TrackPod(id, pod) =>
      if pod < |s.inflight| then
        Admission(s.inflight[pod := s.inflight[pod] + 1], s.requests[id := Holding(pod)])
      else s
    case DropGuard(id) =>
      var pod := s.requests[id].pod;
      Admission(if pod < |s.inflight| then s.inflight[pod := Saturating(s.inflight[pod])] else s.inflight,
                s.requests - {id})
    case Abandon(id) => s.(requests := s.requests - {id})
  }

  /** The actions are what the counters go through when the methods run. */
  method Perform(loads: LoadState, s: Admission, a: Action, maxConns: seq<nat>) returns (t: Admission)
    requires s.inflight == loads.inflight[..] && |maxConns| == |s.inflight| && Enabled(s, a)
    modifies loads.inflight
    ensures t == Next(s, a, maxConns) && t.inflight == loads.inflight[..]
  {
    var requests := s.requests;
    match a {
      case Check(id, pod) =>
        var passed := if id in requests then requests[id].pods else {};
        if pod < |maxConns| && loads.CanAccept(pod, maxConns[pod]) {
          passed := passed + {pod};
        }
        requests := requests[id := Passed(passed)];
      case TrackPod(id, pod) =>
        var guarded := loads.Track(pod);
        if guarded {
          requests := requests[id := Holding(pod)];
        }
      case DropGuard(id) =>
        loads.Decrement(requests[id].pod);
        requests := requests - {id};
      case Abandon(id) =>
        requests := requests - {id};
    }
    t := Admission(loads.inflight[..], requests);
  }

  /** Live guards of a pod. */
  ghost function Holders(s: Admission, pod: nat): set<nat> {
    set id | id in s.requests && s.requests[id] == Holding(pod)
  }

  /** Requests between the capacity check of a pod and its `track`. */
  ghost function Pending(s: Admission, pod: nat): set<nat> {
    set id | id in s.requests && s.requests[id].Passed? && pod in s.requests[id].pods
  }

  function Start(podCount: nat): Admission {
    Admission(seq(podCount, _ => 0), map[])
  }

  /** The state after a run of actions. */
  ghost function After(actions: seq<Action>, maxConns: seq<nat>): Admission
    requires Possible(actions, maxConns)
    ensures |After(actions, maxConns).inflight| == |maxConns|
    decreases |actions|, 1
  {
    if actions == [] then Start(|maxConns|)
    else Next(After(actions[..|actions| - 1], maxConns), actions[|actions| - 1], maxConns)
  }

  /** Every action was enabled when it was taken. */
  ghost predicate Possible(actions: seq<Action>, maxConns: seq<nat>)
    decreases |actions|, 0
  {
    actions != [] ==>
      && Possible(actions[..|actions| - 1], maxConns)
      && Enabled(After(actions[..|actions| - 1], maxConns), actions[|actions| - 1])
  }

  /** At no time during the run were more than k requests pending on the pod. */
  ghost predicate Limited(actions: seq<Action>, maxConns: seq<nat>, pod: nat, k: nat)
    requires Possible(actions, maxConns)
  {
    && |Pending(After(actions, maxConns), pod)| <= k
    && (actions != [] ==> Limited(actions[..|actions| - 1], maxConns, pod, k))
  }

  lemma CheckPending(s: Admission, id: nat, pod: nat, maxConns: seq<nat>, p: nat)
    requires |maxConns| == |s.inflight| && Enabled(s, Check(id, pod)) && p < |s.inflight|
    ensures var t := Next(s, Check(id, pod), maxConns);
      && Holders(t, p) == Holders(s, p)
      && (if pod == p && s.inflight[p] < maxConns[p] then Pending(t, p) == Pending(s, p) + {id}
          else Pending(t, p) == Pending(s, p))
  {
  }

  lemma TrackPending(s: Admission, id: nat, pod: nat, maxConns: seq<nat>, p: nat)
    requires |maxConns| == |s.inflight| && Enabled(s, TrackPod(id, pod)) && pod < |s.inflight| && p < |s.inflight|
    ensures var t := Next(s, TrackPod(id, pod), maxConns);
      && Holders(t, p) == (if pod == p then Holders(s, p) + {id} else Holders(s, p))
      && id !in Holders(s, p)
      && Pending(t, p) == Pending(s, p) - {id}
      && (pod == p ==> id in Pending(s, p))
  {
  }

  lemma EndPending(s: Admission, a: Action, maxConns: seq<nat>, p: nat)
    requires |maxConns| == |s.inflight| && Enabled(s, a) && (a.DropGuard? || a.Abandon?) && p < |s.inflight|
    ensures var t := Next(s, a, maxConns);
      && Holders(t, p) == Holders(s, p) - {a.id}
      && (a.id in Holders(s, p) <==> a == DropGuard(a.id) && s.requests[a.id].pod == p)
      && Pending(t, p) == Pending(s, p) - {a.id}
  {
  }

  /** What holds of the counter and the committed total across one action. */
  ghost predicate Effect(s: Admission, t: Admission, maxConns: seq<nat>, p: nat)
    requires |maxConns| == |s.inflight| == |t.inflight| && p < |s.inflight|
  {
    && t.inflight[p] == |Holders(t, p)|
    && (t.inflight[p] + |Pending(t, p)| <= s.inflight[p] + |Pending(s, p)|
        || (t.inflight[p] == s.inflight[p] && s.inflight[p] < maxConns[p]))
  }

  lemma CheckEffect(s: Admission, id: nat, pod: nat, maxConns: seq<nat>, p: nat)
    requires |maxConns| == |s.inflight| && Enabled(s, Check(id, pod)) && p < |s.inflight|
    requires s.inflight[p] == |Holders(s, p)|
    ensures Effect(s, Next(s, Check(id, pod), maxConns), maxConns, p)
  {
    hide Holders, Pending;
    CheckPending(s, id, pod, maxConns, p);
  }

  lemma TrackEffect(s: Admission, id: nat, pod: nat, maxConns: seq<nat>, p: nat)
    requires |maxConns| == |s.inflight| && Enabled(s, TrackPod(id, pod)) && p < |s.inflight|
    requires s.inflight[p] == |Holders(s, p)|
    ensures Effect(s, Next(s, TrackPod(id, pod), maxConns), maxConns, p)
  {
    hide Holders, Pending;
    if pod < |s.inflight| {
      var t := Next(s, TrackPod(id, pod), maxConns);
      TrackPending(s, id, pod, maxConns, p);
      SubsetSize(Pending(t, p), Pending(s, p));
    }
  }

  lemma EndEffect(s: Admission, a: Action, maxConns: seq<nat>, p: nat)
    requires |maxConns| == |s.inflight| && Enabled(s, a) && (a.DropGuard? || a.Abandon?) && p < |s.inflight|
    requires s.inflight[p] == |Holders(s, p)|
    ensures Effect(s, Next(s, a, maxConns), maxConns, p)
  {
    hide Holders, Pending;
    EndPending(s, a, maxConns, p);
    SubsetSize(Pending(Next(s, a, maxConns), p), Pending(s, p));
  }

  /** One action keeps the counter equal to the live guards, raises the committed total only by a
      check that saw room, and touches no other request; its own ends with a dropped guard or by
      being abandoned. */
  lemma ActionEffect(s: Admission, a: Action, maxConns: seq<nat>, p: nat)
    requires |maxConns| == |s.inflight| && Enabled(s, a) && p < |s.inflight|
    requires s.inflight[p] == |Holders(s, p)|
    ensures |Next(s, a, maxConns).inflight| == |s.inflight|
    ensures var t := Next(s, a, maxConns);
      && t.inflight[p] == |Holders(t, p)|
      && (t.inflight[p] + |Pending(t, p)| <= s.inflight[p] + |Pending(s, p)|
          || (t.inflight[p] == s.inflight[p] && s.inflight[p] < maxConns[p]))
      && (a.id in t.requests <==> a.Check? || a.TrackPod?)
      && (forall id :: id != a.id ==>
            (id in t.requests <==> id in s.requests) && (id in s.requests ==> t.requests[id] == s.requests[id]))
  {
    hide Holders, Pending;
    match a
    case Check(id, pod) => CheckEffect(s, id, pod, maxConns, p);
    case TrackPod(id, pod) => TrackEffect(s, id, pod, maxConns, p);
    case _ => EndEffect(s, a, maxConns, p);
  }

  /** On every run a counter equals the number of live guards of its pod. */
  lemma {:induction false} CounterIsGuards(actions: seq<Action>, maxConns: seq<nat>, pod: nat)
    requires Possible(actions, maxConns) && pod < |maxConns|
    ensures After(actions, maxConns).inflight[pod] == |Holders(After(actions, maxConns), pod)|
    decreases |actions|
  {
    hide Holders, Pending, Enabled, Next;
    if actions == [] {
      assert Holders(After(actions, maxConns), pod) == {} by { NobodyAtStart(|maxConns|, pod); }
    } else {
      var init := actions[..|actions| - 1];
      CounterIsGuards(init, maxConns, pod);
      ActionEffect(After(init, maxConns), actions[|actions| - 1], maxConns, pod);
    }
  }

  lemma NobodyAtStart(podCount: nat, pod: nat)
    ensures Holders(Start(podCount), pod) == {} && Pending(Start(podCount), pod) == {}
  {
  }

  /** The check-then-track race is bounded: with at most k requests between check and track, the
      counter and the pending requests together stay below the capacity plus k. */
  lemma {:induction false} CommittedBounded(actions: seq<Action>, maxConns: seq<nat>, pod: nat, k: nat)
    requires Possible(actions, maxConns) && pod < |maxConns| && k >= 1
    requires Limited(actions, maxConns, pod, k)
    ensures var s := After(actions, maxConns); s.inflight[pod] + |Pending(s, pod)| <= maxConns[pod] - 1 + k
    decreases |actions|
  {
    hide Holders, Pending, Enabled, Next;
    if actions == [] {
      NobodyAtStart(|maxConns|, pod);
    } else {
      var init := actions[..|actions| - 1];
      CounterIsGuards(init, maxConns, pod);
      CommittedBounded(init, maxConns, pod, k);
      ActionEffect(After(init, maxConns), actions[|actions| - 1], maxConns, pod);
    }
  }

  // The bound is attained

  /** Requests 0..h-1 hold the pod, requests h..h+c-1 have passed its check, nobody wants another. */
  ghost function Shape(podCount: nat, pod: nat, h: nat, c: nat): Admission {
    Admission(seq(podCount, p => if p == pod then h else 0), Requests(pod, h, h + c))
  }

  ghost function Requests(pod: nat, h: nat, n: nat): map<nat, Request> {
    map id | id in Ids(0, n) :: if id < h then Holding(pod) else Passed({pod})
  }

  lemma ShapePending(podCount: nat, pod: nat, h: nat, c: nat)
    ensures |Pending(Shape(podCount, pod, h, c), pod)| == c
  {
    assert Pending(Shape(podCount, pod, h, c), pod) == Ids(h, h + c);
    IdsSize(h, h + c);
  }

  /** A run that reaches the shape: while there is room, check; beyond, track what was checked. */
  ghost function Path(max: nat, pod: nat, h: nat, c: nat): seq<Action>
    decreases h, c
  {
    if c > 0 && h < max then Path(max, pod, h, c - 1) + [Check(h + c - 1, pod)]
    else if h > 0 then Path(max, pod, h - 1, c + 1) + [TrackPod(h - 1, pod)]
    else []
  }

  lemma {:induction false} PathReaches(maxConns: seq<nat>, pod: nat, k: nat, h: nat, c: nat)
    requires pod < |maxConns| && maxConns[pod] >= 1 && k >= 1
    requires c <= k && (h >= maxConns[pod] ==> c + h - maxConns[pod] + 1 <= k)
    ensures Possible(Path(maxConns[pod], pod, h, c), maxConns)
    ensures After(Path(maxConns[pod], pod, h, c), maxConns) == Shape(|maxConns|, pod, h, c)
    ensures Limited(Path(maxConns[pod], pod, h, c), maxConns, pod, k)
    decreases h, c
  {
    hide Pending, Next, Shape, Enabled;
    var max := maxConns[pod];
    var path := Path(max, pod, h, c);
    ShapePending(|maxConns|, pod, h, c);
    if c > 0 && h < max {
      PathReaches(maxConns, pod, k, h, c - 1);
      assert path[..|path| - 1] == Path(max, pod, h, c - 1);
      ShapeCheck(maxConns, pod, h, c - 1);
    } else if h > 0 {
      PathReaches(maxConns, pod, k, h - 1, c + 1);
      assert path[..|path| - 1] == Path(max, pod, h - 1, c + 1);
      ShapeTrack(maxConns, pod, h - 1, c);
    } else {
      ShapeStart(|maxConns|, pod);
    }
  }

  lemma ShapeStart(podCount: nat, pod: nat)
    ensures Start(podCount) == Shape(podCount, pod, 0, 0)
  {
  }

  lemma ShapeCheck(maxConns: seq<nat>, pod: nat, h: nat, c: nat)
    requires pod < |maxConns| && h < maxConns[pod]
    ensures Enabled(Shape(|maxConns|, pod, h, c), Check(h + c, pod))
    ensures Next(Shape(|maxConns|, pod, h, c), Check(h + c, pod), maxConns) == Shape(|maxConns|, pod, h, c + 1)
  {
    var none: set<nat> := {};
    assert none + {pod} == {pod};
    assert h + c !in Requests(pod, h, h + c);
    assert Requests(pod, h, h + c)[h + c := Passed({pod})] == Requests(pod, h, h + c + 1);
  }

  lemma ShapeTrack(maxConns: seq<nat>, pod: nat, h: nat, c: nat)
    requires pod < |maxConns|
    ensures Enabled(Shape(|maxConns|, pod, h, c + 1), TrackPod(h, pod))
    ensures Next(Shape(|maxConns|, pod, h, c + 1), TrackPod(h, pod), maxConns) == Shape(|maxConns|, pod, h + 1, c)
  {
    var s := Shape(|maxConns|, pod, h, c + 1);
    assert s.inflight[pod := h + 1] == Shape(|maxConns|, pod, h + 1, c).inflight;
  }

  /** k racing requests can push the counter to capacity - 1 + k, on any catalog and any pod with
      capacity. */
  lemma BoundAttained(maxConns: seq<nat>, pod: nat, k: nat)
    requires pod < |maxConns| && maxConns[pod] >= 1 && k >= 1
    ensures exists actions ::
      && Possible(actions, maxConns) && Limited(actions, maxConns, pod, k)
      && After(actions, maxConns).inflight[pod] == maxConns[pod] - 1 + k
  {
    var h := maxConns[pod] - 1 + k;
    PathReaches(maxConns, pod, k, h, 0);
    var actions := Path(maxConns[pod], pod, h, 0);
    assert Shape(|maxConns|, pod, h, 0).inflight[pod] == h;
  }

  // When capacity is respected

  /** No run with at most k requests between check and track takes the counter beyond the capacity. */
  ghost predicate CapacityRespected(maxConns: seq<nat>, pod: nat, k: nat)
    requires pod < |maxConns|
  {
    forall actions :: Possible(actions, maxConns) && Limited(actions, maxConns, pod, k) ==>
      After(actions, maxConns).inflight[pod] <= maxConns[pod]
  }

  /** Capacity is respected exactly when at most one request at a time is between its check and its
      track, or the pod takes no request at all. */
  lemma CapacityRespectedExactly(maxConns: seq<nat>, pod: nat, k: nat)
    requires pod < |maxConns|
    ensures CapacityRespected(maxConns, pod, k) <==> k <= 1 || maxConns[pod] == 0
  {
    hide Limited, Pending;
    if k <= 1 || maxConns[pod] == 0 {
      forall actions | Possible(actions, maxConns) && Limited(actions, maxConns, pod, k)
        ensures After(actions, maxConns).inflight[pod] <= maxConns[pod]
      {
        if maxConns[pod] == 0 {
          NoCapacityNoRequest(actions, maxConns, pod);
        } else {
          LimitedMore(actions, maxConns, pod, k, 1);
          CommittedBounded(actions, maxConns, pod, 1);
        }
      }
    } else {
      BoundAttained(maxConns, pod, k);
      var actions :| Possible(actions, maxConns) && Limited(actions, maxConns, pod, k)
        && After(actions, maxConns).inflight[pod] == maxConns[pod] - 1 + k;
    }
  }

  lemma {:induction false} LimitedMore(actions: seq<Action>, maxConns: seq<nat>, pod: nat, k: nat, more: nat)
    requires Possible(actions, maxConns) && Limited(actions, maxConns, pod, k) && k <= more
    ensures Limited(actions, maxConns, pod, more)
  {
    hide Pending, Next;
    if actions != [] {
      LimitedMore(actions[..|actions| - 1], maxConns, pod, k, more);
    }
  }

  lemma {:induction false} NoCapacityNoRequest(actions: seq<Action>, maxConns: seq<nat>, pod: nat)
    requires Possible(actions, maxConns) && pod < |maxConns| && maxConns[pod] == 0
    ensures var s := After(actions, maxConns); s.inflight[pod] == 0 && |Pending(s, pod)| == 0
    decreases |actions|
  {
    hide Holders, Pending, Enabled, Next;
    if actions == [] {
      NobodyAtStart(|maxConns|, pod);
    } else {
      var init := actions[..|actions| - 1];
      CounterIsGuards(init, maxConns, pod);
      NoCapacityNoRequest(init, maxConns, pod);
      ActionEffect(After(init, maxConns), actions[|actions| - 1], maxConns, pod);
    }
  }
}

/** The API client's token refresh: one refresh at a time, a queue of requests waiting for it, and one retry each. */
module RefreshQueue {
  import Sorting

  datatype Status = Success | Unauthorized | OtherFailure

  /** A request the client has sent. Leading(r) awaits its own refresh request r; Released is a waiter whose promise was resolved
      and whose retry is still to be sent. */
  datatype Phase = InFlight | Waiting | Leading(refresh: nat) | Released | Resolved | Rejected

  /** sends counts how often the request went out, settled how often its queue entry was settled. */
  datatype Request = Request(refreshUrl: bool, retried: bool, phase: Phase, sends: nat, settled: nat)

  datatype Client = Client(isRefreshing: bool, failedQueue: seq<nat>, requests: map<nat, Request>)

  datatype Event =
    | Send(id: nat, refreshUrl: bool)
    | Respond(id: nat, status: Status, refreshId: nat)
    | Settle(leader: nat)
    | Resume(id: nat)

  // ── The handlers ──────────────────────────────────────────────────────

  function NewRequest(refreshUrl: bool): Request {
    Request(refreshUrl, false, InFlight, 1, 0)
  }

  function Moved(q: Request, phase: Phase): Request {
    q.(phase := phase)
  }

  function Sent(q: Request): Request {
    q.(phase := InFlight, sends := q.sends + 1)
  }

  /** The response interceptor. */
  function OnResponse(c: Client, id: nat, status: Status, refreshId: nat): Client
    requires id in c.requests
  {
    var q := c.requests[id];
    match status
    case Success => c.(requests := c.requests[id := Moved(q, Resolved)])
    case OtherFailure => c.(requests := c.requests[id := Moved(q, Rejected)])
    case Unauthorized =>
      if q.retried || q.refreshUrl then c.(requests := c.requests[id := Moved(q, Rejected)])
      else if c.isRefreshing then
        c.(failedQueue := c.failedQueue + [id], requests := c.requests[id := q.(retried := true, phase := Waiting)])
      else
        c.(isRefreshing := true,
           requests := c.requests[id := q.(retried := true, phase := Leading(refreshId))][refreshId := NewRequest(true)])
  }

  function SettleWaiter(q: Request, ok: bool): Request {
    q.(phase := if ok then Released else Rejected, settled := q.settled + 1)
  }

  /** `processQueue`: every queued entry is resolved, or rejected, and the queue is emptied. */
  function ProcessQueue(requests: map<nat, Request>, queue: seq<nat>, ok: bool): map<nat, Request> {
    map id | id in requests :: if id in queue then SettleWaiter(requests[id], ok) else requests[id]
  }

  /** The leader's refresh has settled: the queue is processed, the leader retries or fails, and refreshing ends, in one turn. */
  function OnSettled(c: Client, leader: nat, ok: bool): Client
    requires leader in c.requests
  {
    var requests := ProcessQueue(c.requests, c.failedQueue, ok);
    Client(false, [], requests[leader := if ok then Sent(c.requests[leader]) else Moved(c.requests[leader], Rejected)])
  }

  predicate Done(q: Request) {
    q.phase == Resolved || q.phase == Rejected
  }

  predicate Enabled(c: Client, e: Event) {
    match e
    case Send(id, _) => id !in c.requests
    case Respond(id, _, refreshId) => id in c.requests && c.requests[id].phase == InFlight && refreshId !in c.requests
    case Settle(leader) =>
      leader in c.requests && c.requests[leader].phase.Leading? &&
      c.requests[leader].phase.refresh in c.requests && Done(c.requests[c.requests[leader].phase.refresh])
    case Resume(id) => id in c.requests && c.requests[id].phase == Released
  }

  function Next(c: Client, e: Event): Client
    requires Enabled(c, e)
  {
    match e
    case Send(id, refreshUrl) => c.(requests := c.requests[id := NewRequest(refreshUrl)])
    case Respond(id, status, refreshId) => OnResponse(c, id, status, refreshId)
    case Settle(leader) => OnSettled(c, leader, c.requests[c.requests[leader].phase.refresh].phase == Resolved)
    case Resume(id) => c.(requests := c.requests[id := Sent(c.requests[id])])
  }

  // ── The invariant ─────────────────────────────────────────────────────

  /** Sent once, or twice and then marked as retried; a queue entry is settled exactly when it leaves the queue. */
  predicate RequestOk(q: Request) {
    && 1 <= q.sends <= 2 && q.settled <= 1
    && (q.refreshUrl ==> !q.retried && q.sends == 1 && (q.phase == InFlight || Done(q)))
    && match q.phase
       case InFlight => (q.sends == 2 <==> q.retried) && (!q.retried ==> q.settled == 0)
       case Waiting => q.retried && q.sends == 1 && q.settled == 0
       case Leading(_) => q.retried && q.sends == 1 && q.settled == 0
       case Released => q.retried && q.sends == 1 && q.settled == 1
       case _ => q.sends == 2 ==> q.retried
  }

  predicate Leads(c: Client, id: nat) {
    id in c.requests && c.requests[id].phase.Leading?
  }

  ghost predicate QueueOk(c: Client) {
    && Sorting.Distinct(c.failedQueue)
    && (forall id :: id in c.failedQueue <==> id in c.requests && c.requests[id].phase == Waiting)
    && (c.failedQueue != [] ==> c.isRefreshing)
  }

  ghost predicate LeaderOk(c: Client) {
    && (c.isRefreshing <==> exists id :: Leads(c, id))
    && (forall a, b :: Leads(c, a) && Leads(c, b) ==> a == b)
    && (forall id :: Leads(c, id) ==>
      c.requests[id].phase.refresh in c.requests && c.requests[c.requests[id].phase.refresh].refreshUrl)
  }

  /** One refresh at most, nobody waits without one, and every request keeps its counts. */
  ghost predicate Inv(c: Client) {
    QueueOk(c) && LeaderOk(c) && forall id :: id in c.requests ==> RequestOk(c.requests[id])
  }

  const START := Client(false, [], map[])

  lemma StartOk()
    ensures Inv(START)
  {
  }

  lemma SendKeeps(c: Client, id: nat, refreshUrl: bool)
    requires Inv(c) && id !in c.requests
    ensures Inv(Next(c, Send(id, refreshUrl)))
  {
    var d := Next(c, Send(id, refreshUrl));
    SameLeaders(c, d);
  }

  /** A step that neither starts nor ends a leader's wait leaves the leader in place. */
  lemma SameLeaders(c: Client, d: Client)
    requires LeaderOk(c) && d.isRefreshing == c.isRefreshing
    requires forall id :: Leads(c, id) <==> Leads(d, id)
    requires forall id :: id in c.requests ==> id in d.requests && d.requests[id].refreshUrl == c.requests[id].refreshUrl
    requires forall id :: Leads(c, id) ==> d.requests[id].phase == c.requests[id].phase
    ensures LeaderOk(d)
  {
    if c.isRefreshing {
      var id :| Leads(c, id);
      assert Leads(d, id);
    }
  }

  lemma FinishKeeps(c: Client, id: nat, phase: Phase)
    requires Inv(c) && id in c.requests && c.requests[id].phase == InFlight && (phase == Resolved || phase == Rejected)
    ensures Inv(c.(requests := c.requests[id := Moved(c.requests[id], phase)]))
  {
    SameLeaders(c, c.(requests := c.requests[id := Moved(c.requests[id], phase)]));
  }

  lemma EnqueueKeeps(c: Client, id: nat)
    requires Inv(c) && id in c.requests && c.requests[id].phase == InFlight
    requires c.isRefreshing && !c.requests[id].retried && !c.requests[id].refreshUrl && c.requests[id].settled == 0
    ensures Inv(c.(failedQueue := c.failedQueue + [id], requests := c.requests[id := c.requests[id].(retried := true, phase := Waiting)]))
  {
    var d := c.(failedQueue := c.failedQueue + [id], requests := c.requests[id := c.requests[id].(retried := true, phase := Waiting)]);
    SameLeaders(c, d);
  }

  lemma LeadKeeps(c: Client, id: nat, refreshId: nat)
    requires Inv(c) && id in c.requests && c.requests[id].phase == InFlight && refreshId !in c.requests
    requires !c.isRefreshing && !c.requests[id].retried && !c.requests[id].refreshUrl && c.requests[id].settled == 0
    ensures Inv(OnResponse(c, id, Unauthorized, refreshId))
  {
    var d := OnResponse(c, id, Unauthorized, refreshId);
    assert Leads(d, id);
    forall a | Leads(d, a)
      ensures a == id
    {
      assert a != id ==> Leads(c, a);
    }
  }

  lemma SettleKeeps(c: Client, leader: nat, ok: bool)
    requires Inv(c) && Leads(c, leader)
    ensures Inv(OnSettled(c, leader, ok))
  {
    var d := OnSettled(c, leader, ok);
    forall id
      ensures !Leads(d, id)
    {
      assert Leads(d, id) ==> Leads(c, id);
    }
    assert leader !in c.failedQueue;
  }

  lemma ResumeKeeps(c: Client, id: nat)
    requires Inv(c) && id in c.requests && c.requests[id].phase == Released
    ensures Inv(Next(c, Resume(id)))
  {
    SameLeaders(c, Next(c, Resume(id)));
  }

  lemma RespondKeeps(c: Client, id: nat, status: Status, refreshId: nat)
    requires Inv(c) && Enabled(c, Respond(id, status, refreshId))
    ensures Inv(OnResponse(c, id, status, refreshId))
  {
    var q := c.requests[id];
    if status == Success {
      FinishKeeps(c, id, Resolved);
    } else if status == OtherFailure || q.retried || q.refreshUrl {
      FinishKeeps(c, id, Rejected);
    } else if c.isRefreshing {
      EnqueueKeeps(c, id);
    } else {
      LeadKeeps(c, id, refreshId);
    }
  }

  lemma NextKeeps(c: Client, e: Event)
    requires Inv(c) && Enabled(c, e)
    ensures Inv(Next(c, e))
  {
    match e
    case Send(id, refreshUrl) => SendKeeps(c, id, refreshUrl);
    case Respond(id, status, refreshId) => RespondKeeps(c, id, status, refreshId);
    case Settle(leader) => SettleKeeps(c, leader, c.requests[c.requests[leader].phase.refresh].phase == Resolved);
    case Resume(id) => ResumeKeeps(c, id);
  }

  /** The states a run of events passes through. */
  ghost predicate IsRun(states: seq<Client>, events: seq<Event>) {
    |states| == |events| + 1 && states[0] == START && forall i :: 0 <= i < |events| ==> IsStep(states, events, i)
  }

  ghost predicate IsStep(states: seq<Client>, events: seq<Event>, i: nat)
    requires |states| == |events| + 1 && i < |events|
  {
    Enabled(states[i], events[i]) && states[i + 1] == Next(states[i], events[i])
  }

  /** Every interleaving of responses, refreshes and retries keeps the invariant. */
  lemma {:induction false} RunKeeps(states: seq<Client>, events: seq<Event>, i: nat)
    requires IsRun(states, events) && i <= |events|
    ensures Inv(states[i])
  {
    if i == 0 {
      StartOk();
    } else {
      RunKeeps(states, events, i - 1);
      assert IsStep(states, events, i - 1);
      NextKeeps(states[i - 1], events[i - 1]);
    }
  }

  /** In every reachable state one request at most leads a refresh, nobody waits without a refresh, and nothing was sent three times
      or settled twice. */
  lemma AtMostOneRefresh(states: seq<Client>, events: seq<Event>, i: nat, a: nat, b: nat)
    requires IsRun(states, events) && i <= |events|
    ensures var c := states[i];
      && (Leads(c, a) && Leads(c, b) ==> a == b)
      && (!c.isRefreshing ==> c.failedQueue == [] && !Leads(c, a) && (a in c.requests ==> c.requests[a].phase != Waiting))
      && (a in c.requests ==> c.requests[a].sends <= 2 && c.requests[a].settled <= 1)
      && (a in c.requests && c.requests[a].refreshUrl ==> c.requests[a].sends == 1 && !Leads(c, a))
  {
    RunKeeps(states, events, i);
  }

  // ── Refresh requests in flight ────────────────────────────────────────

  predicate InFlightRefresh(c: Client, id: nat) {
    id in c.requests && c.requests[id].refreshUrl && c.requests[id].phase == InFlight
  }

  predicate AwaitedBy(c: Client, leader: nat, id: nat) {
    Leads(c, leader) && c.requests[leader].phase.refresh == id
  }

  ghost predicate Awaited(c: Client, id: nat) {
    exists leader :: AwaitedBy(c, leader, id)
  }

  /** Only a leader's own refresh request is out. */
  ghost predicate OwnRefreshes(c: Client) {
    forall id :: InFlightRefresh(c, id) ==> Awaited(c, id)
  }

  lemma AwaitedStays(c: Client, d: Client, id: nat)
    requires Awaited(c, id) && forall l :: Leads(c, l) ==> Leads(d, l) && d.requests[l].phase == c.requests[l].phase
    ensures Awaited(d, id)
  {
    var l :| AwaitedBy(c, l, id);
    assert AwaitedBy(d, l, id);
  }

  lemma RespondOwn(c: Client, id: nat, status: Status, refreshId: nat)
    requires Inv(c) && OwnRefreshes(c) && Enabled(c, Respond(id, status, refreshId))
    ensures OwnRefreshes(OnResponse(c, id, status, refreshId))
  {
    var d := OnResponse(c, id, status, refreshId);
    forall r | InFlightRefresh(d, r)
      ensures Awaited(d, r)
    {
      if r in c.requests {
        assert InFlightRefresh(c, r);
        AwaitedStays(c, d, r);
      } else {
        assert AwaitedBy(d, id, r);
      }
    }
  }

  /** The leader's refresh is done when it settles, so then none is out. */
  lemma SettleOwn(c: Client, leader: nat, ok: bool)
    requires Inv(c) && OwnRefreshes(c) && Enabled(c, Settle(leader))
    ensures OwnRefreshes(OnSettled(c, leader, ok))
  {
    var d := OnSettled(c, leader, ok);
    assert Leads(c, leader) && RequestOk(c.requests[leader]);
    forall r
      ensures !InFlightRefresh(d, r)
    {
      assert r in c.requests ==> RequestOk(c.requests[r]);
      assert forall l :: AwaitedBy(c, l, r) ==> l == leader;
      assert !Awaited(c, r) || !InFlightRefresh(c, r);
    }
  }

  lemma NextOwn(c: Client, e: Event)
    requires Inv(c) && OwnRefreshes(c) && Enabled(c, e) && (e.Send? ==> !e.refreshUrl)
    ensures OwnRefreshes(Next(c, e))
  {
    match e
    case Send(id, refreshUrl) => QuietOwn(c, Next(c, e));
    case Respond(id, status, refreshId) => RespondOwn(c, id, status, refreshId);
    case Settle(leader) => SettleOwn(c, leader, c.requests[c.requests[leader].phase.refresh].phase == Resolved);
    case Resume(id) =>
      assert RequestOk(c.requests[id]);
      QuietOwn(c, Next(c, e));
  }

  lemma QuietOwn(c: Client, d: Client)
    requires OwnRefreshes(c) && forall r :: InFlightRefresh(d, r) ==> InFlightRefresh(c, r)
    requires forall l :: Leads(c, l) ==> Leads(d, l) && d.requests[l].phase == c.requests[l].phase
    ensures OwnRefreshes(d)
  {
    forall r | InFlightRefresh(d, r)
      ensures Awaited(d, r)
    {
      AwaitedStays(c, d, r);
    }
  }

  /** Nobody but the interceptor asks for a refresh. */
  predicate NoOtherRefresh(events: seq<Event>) {
    forall i :: 0 <= i < |events| && events[i].Send? ==> !events[i].refreshUrl
  }

  lemma {:induction false} RunOwn(states: seq<Client>, events: seq<Event>, i: nat)
    requires IsRun(states, events) && NoOtherRefresh(events) && i <= |events|
    ensures OwnRefreshes(states[i])
  {
    if i > 0 {
      RunOwn(states, events, i - 1);
      RunKeeps(states, events, i - 1);
      assert IsStep(states, events, i - 1);
      NextOwn(states[i - 1], events[i - 1]);
    }
  }

  /** Whatever the interleaving, at most one refresh request of the interceptor is in flight, and only while it is refreshing. */
  lemma OneRefreshInFlight(states: seq<Client>, events: seq<Event>, i: nat, a: nat, b: nat)
    requires IsRun(states, events) && NoOtherRefresh(events) && i <= |events|
    requires InFlightRefresh(states[i], a)
    ensures states[i].isRefreshing && (InFlightRefresh(states[i], b) ==> a == b)
  {
    RunKeeps(states, events, i);
    RunOwn(states, events, i);
    var l :| AwaitedBy(states[i], l, a);
    if InFlightRefresh(states[i], b) {
      var m :| AwaitedBy(states[i], m, b);
    }
  }

  /** When the refresh settles every waiter is settled, for the first and only time, and the leader goes out once more or fails. */
  lemma SettlingIsComplete(states: seq<Client>, events: seq<Event>, i: nat, id: nat)
    requires IsRun(states, events) && i < |events| && events[i].Settle? && id in states[i].requests
    ensures var (c, d, leader) := (states[i], states[i + 1], events[i].leader);
      && !d.isRefreshing && d.failedQueue == [] && id in d.requests && d.requests[id].phase != Waiting
      && (c.requests[id].phase == Waiting ==> c.requests[id].settled == 0 && d.requests[id].settled == 1)
      && (c.requests[id].phase != Waiting && id != leader ==> d.requests[id] == c.requests[id])
      && (id == leader ==> d.requests[id].phase == Rejected || (d.requests[id].phase == InFlight && d.requests[id].sends == 2))
  {
    RunKeeps(states, events, i);
    assert IsStep(states, events, i);
    assert Leads(states[i], events[i].leader);
  }

  /** Leader and waiters go on exactly when the refresh succeeded, and fail with it otherwise. */
  lemma SettlingFollowsRefresh(states: seq<Client>, events: seq<Event>, i: nat, refresh: nat, id: nat)
    requires IsRun(states, events) && i < |events| && events[i].Settle? && AwaitedBy(states[i], events[i].leader, refresh)
    requires id in states[i].requests && (id == events[i].leader || states[i].requests[id].phase == Waiting)
    ensures refresh in states[i].requests && Done(states[i].requests[refresh]) && id in states[i + 1].requests
    ensures var phase := states[i + 1].requests[id].phase;
      if states[i].requests[refresh].phase == Resolved then phase == if id == events[i].leader then InFlight else Released
      else phase == Rejected
  {
    RunKeeps(states, events, i);
    assert IsStep(states, events, i);
    assert Leads(states[i], events[i].leader);
  }

  /** Only the first 401 of a request starts or joins a refresh; any other answer settles it, and nobody else is touched. */
  lemma AnswerDecides(states: seq<Client>, events: seq<Event>, i: nat, other: nat)
    requires IsRun(states, events) && i < |events| && events[i].Respond? && Enabled(states[i], events[i])
    ensures var (c, d, e) := (states[i], states[i + 1], events[i]);
      var renews := e.status == Unauthorized && !c.requests[e.id].refreshUrl && c.requests[e.id].sends == 1;
      && e.id in d.requests && d.requests[e.id].sends == c.requests[e.id].sends
      && (!renews ==> d.requests[e.id].phase == if e.status == Success then Resolved else Rejected)
      && (renews && c.isRefreshing ==> d.requests[e.id].phase == Waiting && d.failedQueue == c.failedQueue + [e.id])
      && (renews && !c.isRefreshing ==> AwaitedBy(d, e.id, e.refreshId) && InFlightRefresh(d, e.refreshId) && d.isRefreshing)
      && (other != e.id && other in c.requests ==> other in d.requests && d.requests[other] == c.requests[other])
      && (other in d.requests && other !in c.requests ==> renews && !c.isRefreshing && other == e.refreshId)
  {
    RunKeeps(states, events, i);
    assert IsStep(states, events, i);
    assert RequestOk(states[i].requests[events[i].id]);
  }

  // ── No retry without a refresh ────────────────────────────────────────

  predicate Renewed(c: Client, r: nat) {
    r in c.requests && c.requests[r].refreshUrl && c.requests[r].phase == Resolved
  }

  /** A request goes out again, or is about to, only when some refresh succeeded. */
  ghost predicate RetriesEarned(c: Client) {
    forall id :: id in c.requests && (c.requests[id].sends == 2 || c.requests[id].phase == Released) ==> exists r :: Renewed(c, r)
  }

  lemma RenewedStays(c: Client, e: Event, r: nat)
    requires Inv(c) && Enabled(c, e) && Renewed(c, r)
    ensures Renewed(Next(c, e), r)
  {
    assert RequestOk(c.requests[r]);
  }

  lemma NextEarned(c: Client, e: Event)
    requires Inv(c) && Enabled(c, e) && RetriesEarned(c)
    ensures RetriesEarned(Next(c, e))
  {
    var d := Next(c, e);
    forall id | id in d.requests && (d.requests[id].sends == 2 || d.requests[id].phase == Released)
      ensures exists r :: Renewed(d, r)
    {
      var r := SomeRenewed(c, e, id);
      RenewedStays(c, e, r);
    }
  }

  /** Whoever goes out again owes it to an earlier retry, or to the refresh that settles now. */
  lemma SomeRenewed(c: Client, e: Event, id: nat) returns (r: nat)
    requires Inv(c) && Enabled(c, e) && RetriesEarned(c) && id in Next(c, e).requests
    requires Next(c, e).requests[id].sends == 2 || Next(c, e).requests[id].phase == Released
    ensures Renewed(c, r)
  {
    if id in c.requests && (c.requests[id].sends == 2 || c.requests[id].phase == Released) {
      r :| Renewed(c, r);
    } else {
      assert e.Settle?;
      assert Leads(c, e.leader);
      r := c.requests[e.leader].phase.refresh;
    }
  }

  /** In every reachable state, whoever was sent twice was sent again after a refresh that succeeded. */
  lemma {:induction false} RetryNeedsRefresh(states: seq<Client>, events: seq<Event>, i: nat)
    requires IsRun(states, events) && i <= |events|
    ensures RetriesEarned(states[i])
  {
    if i > 0 {
      RetryNeedsRefresh(states, events, i - 1);
      RunKeeps(states, events, i - 1);
      assert IsStep(states, events, i - 1);
      NextEarned(states[i - 1], events[i - 1]);
    }
  }

  // ── The module's variables and its handlers ───────────────────────────

  class Interceptor {
    var isRefreshing: bool
    var failedQueue: seq<nat>
    var requests: map<nat, Request>

    function State(): Client
      reads this
    {
      Client(isRefreshing, failedQueue, requests)
    }

    constructor ()
      ensures State() == START
    {
      isRefreshing, failedQueue, requests := false, [], map[];
    }

    /** The rejection handler of the interceptor. */
    method HandleResponse(id: nat, status: Status, refreshId: nat)
      requires Inv(State()) && Enabled(State(), Respond(id, status, refreshId))
      modifies this
      ensures State() == Next(old(State()), Respond(id, status, refreshId)) && Inv(State())
    {
      RespondKeeps(State(), id, status, refreshId);
      var q := requests[id];
      if status == Success {
        requests := requests[id := q.(phase := Resolved)];
        return;
      }
      if status == Unauthorized && !q.retried {
        if q.refreshUrl {
          requests := requests[id := q.(phase := Rejected)];
          return;
        }
        if isRefreshing {
          requests := requests[id := q.(retried := true, phase := Waiting)];
          failedQueue := failedQueue + [id];
          return;
        }
        requests := requests[id := q.(retried := true, phase := Leading(refreshId))][refreshId := NewRequest(true)];
        isRefreshing := true;
        return;
      }
      requests := requests[id := q.(phase := Rejected)];
    }

    /** What follows the await: the queue, the leader's retry or failure, and the finally block. */
    method HandleRefreshSettled(leader: nat)
      requires Inv(State()) && Enabled(State(), Settle(leader))
      modifies this
      ensures State() == Next(old(State()), Settle(leader)) && Inv(State())
    {
      NextKeeps(State(), Settle(leader));
      var ok := requests[requests[leader].phase.refresh].phase == Resolved;
      assert leader !in failedQueue;
      ProcessWaiters(ok);
      requests := requests[leader := if ok then Sent(requests[leader]) else Moved(requests[leader], Rejected)];
      isRefreshing := false;
    }

    /** `failedQueue.forEach(...)`, then the empty queue. */
    method ProcessWaiters(ok: bool)
      requires Sorting.Distinct(failedQueue) && forall id :: id in failedQueue ==> id in requests
      modifies `requests, `failedQueue
      ensures requests == ProcessQueue(old(requests), old(failedQueue), ok) && failedQueue == []
    {
      ghost var start := requests;
      for i := 0 to |failedQueue|
        invariant failedQueue == old(failedQueue) && requests == ProcessQueue(start, failedQueue[..i], ok)
      {
        var id := failedQueue[i];
        ProcessOne(start, failedQueue, i, ok);
        requests := requests[id := SettleWaiter(requests[id], ok)];
      }
      assert failedQueue[..|failedQueue|] == failedQueue;
      failedQueue := [];
    }
  }

  lemma ProcessOne(requests: map<nat, Request>, queue: seq<nat>, i: nat, ok: bool)
    requires Sorting.Distinct(queue) && i < |queue| && queue[i] in requests
    ensures var before := ProcessQueue(requests, queue[..i], ok);
      queue[i] in before && ProcessQueue(requests, queue[..i + 1], ok) == before[queue[i] := SettleWaiter(before[queue[i]], ok)]
  {
    assert queue[i] !in queue[..i];
    assert queue[..i + 1] == queue[..i] + [queue[i]];
  }
}

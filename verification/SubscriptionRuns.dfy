/**
 Interleaved runs of the connection manager: a broadcast awaits every send, and between two sends anything
 else may happen. Until a socket subscribes that was dropped before, the maps agree at every await, a broadcast
 tries no socket twice, and a socket whose send failed stays gone.
 */
module SubscriptionRuns {
  import opened Prelude
  import opened Subscriptions

  /** A broadcast between two sends: the copy it still goes through, and what it has done. */
  datatype Broadcast = Broadcast(
    trajectoryId: Option<string>,
    onTrajectory: bool,
    pending: set<Socket>,
    attempts: seq<Socket>,
    notified: set<Socket>,
    failed: set<Socket>)

  datatype Event =
    | Connect(s: Socket)
    | Subscribe(kind: Kind, s: Socket, topic: string)
    | Unsubscribe(kind: Kind, s: Socket, topic: string)
    | Disconnect(s: Socket)
    | Start(flowOrEvaluation: bool, projectId: Option<string>, trajectoryId: Option<string>)
    | Send(task: nat, s: Socket, fails: bool)
    | NextTopic(task: nat)

  /** What an outside observer sees of the server between two events. */
  datatype Snapshot = Snapshot(
    accepted: set<Socket>,
    active: set<Socket>,
    projects: Index,
    trajectories: Index,
    tasks: seq<Broadcast>)
  {
    function Listed(kind: Kind, topic: string): set<Socket> {
      Members(if kind == Project then projects else trajectories, topic)
    }
  }

  class Server {
    const manager: ConnectionManager
    /** All sockets whose handshake was ever accepted; it is accepted once. */
    var accepted: set<Socket>
    var tasks: seq<Broadcast>

    constructor ()
      ensures Valid() && fresh(manager) && tasks == [] && accepted == manager.activeConnections == {}
    {
      manager := new ConnectionManager();
      accepted, tasks := {}, [];
    }

    /** Nothing was tried twice; the failed are off every map, and cannot come back. */
    ghost predicate Sound(b: Broadcast)
      reads this, manager
    {
      SoundTask(b, accepted, manager.activeConnections)
    }

    function Now(): Snapshot
      reads this, manager
    {
      Snapshot(accepted, manager.activeConnections, manager.projectSubscriptions, manager.trajectorySubscriptions,
          tasks)
    }

    ghost predicate Valid()
      reads this, manager
    {
      && manager.Agree()
      && manager.activeConnections <= accepted
      && forall k :: 0 <= k < |tasks| ==> Sound(tasks[k])
    }

    /**
     What the environment does: a handshake is accepted once, and messages come from sockets that were accepted, also
     when a failed send has dropped them since.
     */
    predicate Possible(e: Event)
      reads this, manager
    {
      Can(e, Now())
    }

    /** A socket that the manager has dropped does not subscribe. */
    predicate Orderly(e: Event)
      reads manager
    {
      e.Subscribe? ==> e.s in manager.socketSubscriptions
    }

    /** A socket that is listed under a topic, and is nowhere else. */
    ghost predicate Stray(s: Socket, kind: Kind, topic: string)
      reads this, manager
    {
      s in accepted && s !in manager.socketSubscriptions && s in manager.Subscribers(kind, topic)
    }

    lemma SubscribersAccepted(kind: Kind, topic: string)
      requires Valid()
      ensures manager.Subscribers(kind, topic) <= manager.activeConnections
    {
      forall s | s in manager.Subscribers(kind, topic) ensures s in manager.activeConnections {
        assert topic in manager.Topics(s, kind);
      }
    }

    method Accept(s: Socket)
      requires s !in accepted
      modifies this`accepted, manager
      ensures accepted == old(accepted) + {s} && manager.activeConnections == old(manager.activeConnections) + {s}
      ensures forall k, t :: manager.Subscribers(k, t) == old(manager.Subscribers(k, t))
      ensures forall r :: r in manager.socketSubscriptions <==> r in old(manager.socketSubscriptions) || r == s
      ensures old(Valid()) ==> Valid()
    {
      if Valid() {
        forall kind, topic ensures !manager.SubscribedTo(s, kind, topic) {
          SubscribersAccepted(kind, topic);
        }
      }
      accepted := accepted + {s};
      var _ := manager.Connect(s, true);
    }

    /** The maps still agree exactly if the socket was connected; if not, it is a stray one. */
    method AddSubscription(kind: Kind, s: Socket, topic: string)
      requires s in accepted
      modifies manager
      ensures manager.activeConnections == old(manager.activeConnections)
      ensures forall k, t :: manager.Subscribers(k, t) ==
                old(manager.Subscribers(k, t)) + if k == kind && t == topic then {s} else {}
      ensures forall r :: r in manager.socketSubscriptions <==> r in old(manager.socketSubscriptions)
      ensures old(Valid()) ==> (Valid() <==> old(s in manager.socketSubscriptions))
      ensures s !in old(manager.socketSubscriptions) ==> Stray(s, kind, topic)
    {
      var _ := manager.Subscribe(kind, s, topic);
    }

    method Step(e: Event)
      requires Possible(e)
      modifies this, manager
      ensures accepted == if e.Connect? then old(accepted) + {e.s} else old(accepted)
      ensures manager.activeConnections == ActiveAfter(e, old(tasks), old(manager.activeConnections))
      ensures tasks == TasksAfter(e, old(tasks), old(Reached(e)))
      ensures old(Valid()) ==> (Valid() <==> old(Orderly(e)))
      ensures old(Valid()) ==>
                (forall k, t :: manager.Subscribers(k, t) ==
                  SubscribersAfter(e, old(tasks), k, t, old(manager.Subscribers(k, t))))
      ensures old(!Orderly(e)) ==> Stray(e.s, e.kind, e.topic)
      ensures forall s, k, t :: old(Stray(s, k, t)) && e != Unsubscribe(k, s, t) ==> Stray(s, k, t)
    {
      match e
      case Connect(s) =>
        Accept(s);
      case Subscribe(kind, s, topic) =>
        AddSubscription(kind, s, topic);
      case Unsubscribe(kind, s, topic) =>
        manager.Unsubscribe(kind, s, topic);
      case Disconnect(s) =>
        manager.Disconnect(s);
      case Start(flowOrEvaluation, projectId, trajectoryId) =>
        StartBroadcast(flowOrEvaluation, projectId, trajectoryId);
      case Send(task, s, fails) =>
        SendOne(task, s, fails);
      case NextTopic(task) =>
        TurnToTrajectory(task);
    }

    /** Whom a broadcast takes up at this event: the subscribers of the project, or then those of the trajectory. */
    function Reached(e: Event): set<Socket>
      requires Possible(e)
      reads this, manager
    {
      ReachedIn(e, Now())
    }

    method StartBroadcast(flowOrEvaluation: bool, projectId: Option<string>, trajectoryId: Option<string>)
      modifies this`tasks
      ensures old(Valid()) ==> Valid()
      ensures
        var targets := if flowOrEvaluation && Given(projectId) then manager.Subscribers(Project, projectId.value)
          else {};
        tasks == old(tasks) + [Broadcast(trajectoryId, false, targets, [], {}, {})]
    {
      var targets: set<Socket> := {};
      if flowOrEvaluation && Given(projectId) {
        if Valid() {
          SubscribersAccepted(Project, projectId.value);
        }
        targets := manager.Subscribers(Project, projectId.value);
      }
      tasks := tasks + [Broadcast(trajectoryId, false, targets, [], {}, {})];
    }

    method SendOne(task: nat, s: Socket, fails: bool)
      requires task < |tasks| && s in tasks[task].pending
      modifies this`tasks, manager
      ensures old(Valid()) ==> Valid()
      ensures tasks == old(tasks)[task := Sent(old(tasks[task]), s, fails)]
      ensures manager.activeConnections == old(manager.activeConnections) - Lost(old(tasks[task]), s, fails)
      ensures forall r :: r in manager.socketSubscriptions <==>
                r in old(manager.socketSubscriptions) && r !in Lost(old(tasks[task]), s, fails)
      ensures forall k, t :: manager.Subscribers(k, t) == old(manager.Subscribers(k, t)) -
                if t in old(manager.Topics(s, k)) then Lost(old(tasks[task]), s, fails) else {}
      ensures old(Valid()) ==>
                (forall k, t :: manager.Subscribers(k, t) ==
                  old(manager.Subscribers(k, t)) - Lost(old(tasks[task]), s, fails))
    {
      var b := tasks[task];
      ghost var sound := Valid();
      assert sound ==> Sound(b);
      if s !in b.notified && fails {
        manager.Disconnect(s);
      }
      assert sound ==> Sound(Sent(b, s, fails));
      tasks := tasks[task := Sent(b, s, fails)];
    }

    method TurnToTrajectory(task: nat)
      requires task < |tasks| && tasks[task].pending == {} && !tasks[task].onTrajectory
      modifies this`tasks
      ensures old(Valid()) ==> Valid()
      ensures
        var b := old(tasks[task]);
        var targets := if Given(b.trajectoryId) then manager.Subscribers(Trajectory, b.trajectoryId.value) else {};
        tasks == old(tasks)[task := b.(onTrajectory := true, pending := targets)]
    {
      var b := tasks[task];
      ghost var sound := Valid();
      assert sound ==> Sound(b);
      var targets: set<Socket> := {};
      if Given(b.trajectoryId) {
        if sound {
          SubscribersAccepted(Trajectory, b.trajectoryId.value);
        }
        targets := manager.Subscribers(Trajectory, b.trajectoryId.value);
      }
      b := b.(onTrajectory := true, pending := targets);
      assert sound ==> Sound(b);
      tasks := tasks[task := b];
    }

    /** The subscription with which the maps came apart is there as long as it is not taken back. */
    ghost predicate StillStray(events: seq<Event>, first: nat)
      requires first < |events|
      reads this, manager
    {
      && events[first].Subscribe?
      && var e := events[first];
      Unsubscribe(e.kind, e.s, e.topic) !in events[first + 1..] ==> Stray(e.s, e.kind, e.topic) && !manager.Agree()
    }

    /** While the maps agree, an event that can happen relists the topics as it should. */
    twostate lemma StepRelists(e: Event)
      requires Can(e, old(Now()))
      requires forall k, t :: manager.Subscribers(k, t) ==
                 SubscribersAfter(e, old(tasks), k, t, old(manager.Subscribers(k, t)))
      ensures Relisted(e, old(Now()), Now())
    {
      forall kind, topic
        ensures Now().Listed(kind, topic)
            == SubscribersAfter(e, old(tasks), kind, topic, old(Now()).Listed(kind, topic))
      {
        assert Now().Listed(kind, topic) == manager.Subscribers(kind, topic);
        assert old(Now()).Listed(kind, topic) == old(manager.Subscribers(kind, topic));
      }
    }

    /** An event happens if it can, and nothing else does. */
    method Turn(e: Event)
      modifies this, manager
      ensures Follows(e, old(Now()), Now())
      ensures old(Valid()) && !Disorderly(e, old(Now())) ==> Valid() && Relisted(e, old(Now()), Now())
      ensures old(Valid()) && Disorderly(e, old(Now())) ==> Stray(e.s, e.kind, e.topic)
      ensures forall s, k, t :: old(Stray(s, k, t)) && e != Unsubscribe(k, s, t) ==> Stray(s, k, t)
    {
      ghost var (before, valid) := (Now(), Valid());
      assert valid ==> (Orderly(e) <==> (e.Subscribe? ==> e.s in manager.activeConnections));
      if Possible(e) {
        Step(e);
        if valid {
          StepRelists(e);
        }
      }
    }

    lemma ValidIsSafe()
      requires Valid()
      ensures Safe(Now())
    {
      forall kind, topic ensures Now().Listed(kind, topic) <= manager.activeConnections {
        SubscribersAccepted(kind, topic);
        assert Now().Listed(kind, topic) == manager.Subscribers(kind, topic);
      }
    }

    lemma StrayParts(s: Socket, kind: Kind, topic: string)
      requires Stray(s, kind, topic)
      ensures !manager.Agree()
    {
      assert topic !in manager.Topics(s, kind);
    }

    /** The first subscription by a dropped socket came at `first`, and what it left is there unless taken back. */
    ghost predicate Apart(events: seq<Event>, states: seq<Snapshot>, first: nat)
      requires first < |events| < |states|
      reads this, manager
    {
      Disorderly(events[first], states[first]) && StillStray(events, first)
    }

    /** What a run keeps. */
    ghost predicate Ran(events: seq<Event>, states: seq<Snapshot>, first: nat)
      reads this, manager
    {
      && first <= |events| && Trace(events, states) && states[|events|] == Now()
      && SafeUpTo(events, states, first)
      && (if first == |events| then Valid() else Apart(events, states, first))
    }

    /** One more event. */
    method RunOn(e: Event, ghost events: seq<Event>, ghost states: seq<Snapshot>, ghost first: nat)
      returns (ghost more: seq<Snapshot>, ghost next: nat)
      requires Ran(events, states, first)
      modifies this, manager
      ensures Ran(events + [e], more, next) && more[0] == states[0]
    {
      ghost var orderly := !Disorderly(e, Now());
      Turn(e);
      more, next := states + [Now()], if first == |events| && orderly then first + 1 else first;
      TraceSnoc(events, states, e, Now());
      if first == |events| && orderly {
        ValidIsSafe();
        SafeSnoc(events, states, e, Now());
      } else {
        SafeStays(events, states, e, Now(), first);
        var c := (events + [e])[first];
        assert (events + [e])[first + 1..] == if first == |events| then [] else events[first + 1..] + [e];
        if Stray(c.s, c.kind, c.topic) {
          StrayParts(c.s, c.kind, c.topic);
        }
      }
    }

    /**
     Any run of events, in any interleaving; those that are not possible do not happen. As long as no socket
     subscribes that was dropped, the maps agree and all broadcasts are safe; at the first one that does, they part,
     and stay apart, whatever happens, until that socket unsubscribes.
     */
    method Run(events: seq<Event>) returns (ghost states: seq<Snapshot>, ghost first: nat)
      requires Valid()
      modifies this, manager
      ensures Trace(events, states) && states[0] == old(Now()) && states[|events|] == Now()
      ensures first <= |events| && SafeUpTo(events, states, first)
      ensures first == |events| ==> Valid()
      ensures first < |events| ==> Disorderly(events[first], states[first]) && StillStray(events, first)
    {
      states, first := [Now()], 0;
      ValidIsSafe();
      for k := 0 to |events|
        invariant Ran(events[..k], states, first) && states[0] == old(Now())
      {
        assert events[..k + 1] == events[..k] + [events[k]];
        states, first := RunOn(events[k], events[..k], states, first);
      }
      assert events[..|events|] == events;
    }
  }

  /** After it unsubscribes it is not. */
  method UnsubscribedRun(s: Socket, topic: string) returns (server: Server)
    ensures server.manager.Agree() && s !in server.manager.Subscribers(Project, topic)
    ensures s in server.manager.activeConnections
  {
    server := new Server();
    ghost var states, first :=
      server.Run([Connect(s), Subscribe(Project, s, topic), Unsubscribe(Project, s, topic)]);
    assert s in states[1].active && first == 3;
    assert states[3].Listed(Project, topic) == states[2].Listed(Project, topic) - {s};
  }

  /** A socket that is connected and subscribes is listed, and the maps agree. */
  method SubscribedRun(s: Socket, topic: string) returns (server: Server)
    ensures server.manager.Agree() && s in server.manager.Subscribers(Project, topic)
  {
    server := new Server();
    ghost var states, first := server.Run([Connect(s), Subscribe(Project, s, topic)]);
    assert s in states[1].active && first == 2;
    assert states[2].Listed(Project, topic) == states[1].Listed(Project, topic) + {s};
  }

  /** A socket that was disconnected and subscribes is listed, and the maps do not agree. */
  method DroppedRun(s: Socket, topic: string) returns (server: Server)
    ensures !server.manager.Agree() && s in server.manager.Subscribers(Project, topic)
  {
    server := new Server();
    ghost var events := [Connect(s), Disconnect(s), Subscribe(Project, s, topic)];
    ghost var states, first := server.Run([Connect(s), Disconnect(s), Subscribe(Project, s, topic)]);
    assert s in states[1].active && s in states[2].accepted && s !in states[2].active;
    assert first == 2 && events[3..] == [];
  }

  // ---------- runs ----------

  ghost predicate SoundTask(b: Broadcast, accepted: set<Socket>, active: set<Socket>) {
    && Distinct(b.attempts)
    && (forall s :: s in b.attempts <==> s in b.notified || s in b.failed)
    && b.notified !! b.failed && b.pending !! b.failed
    && b.pending <= accepted && b.failed <= accepted
    && b.failed !! active
  }

  /** No broadcast has tried a socket twice, the failed are gone, and only connected sockets are listed. */
  ghost predicate Safe(b: Snapshot) {
    && (forall k :: 0 <= k < |b.tasks| ==> SoundTask(b.tasks[k], b.accepted, b.active))
    && forall kind, topic :: b.Listed(kind, topic) <= b.active
  }

  predicate Can(e: Event, b: Snapshot) {
    match e
    case Connect(s) => s !in b.accepted
    case Subscribe(_, s, _) => s in b.accepted
    case Send(task, s, _) => task < |b.tasks| && s in b.tasks[task].pending
    case NextTopic(task) => task < |b.tasks| && b.tasks[task].pending == {} && !b.tasks[task].onTrajectory
    case _ => true
  }

  /** A socket subscribes that was accepted, and dropped since. */
  predicate Disorderly(e: Event, b: Snapshot) {
    e.Subscribe? && e.s in b.accepted && e.s !in b.active
  }

  function ReachedIn(e: Event, b: Snapshot): set<Socket>
    requires Can(e, b)
  {
    match e
    case Start(flowOrEvaluation, projectId, _) =>
      if flowOrEvaluation && Given(projectId) then b.Listed(Project, projectId.value) else {}
    case NextTopic(task) =>
      if Given(b.tasks[task].trajectoryId) then b.Listed(Trajectory, b.tasks[task].trajectoryId.value) else {}
    case _ => {}
  }

  /** What an event makes of the connections and the broadcasts, in any state. */
  ghost predicate Follows(e: Event, a: Snapshot, b: Snapshot) {
    if !Can(e, a) then b == a
    else
      && b.accepted == (if e.Connect? then a.accepted + {e.s} else a.accepted)
      && b.active == ActiveAfter(e, a.tasks, a.active)
      && b.tasks == TasksAfter(e, a.tasks, ReachedIn(e, a))
  }

  /** Whom a broadcast still has to try, or has tried. */
  function Concerned(b: Broadcast): set<Socket> {
    b.pending + b.notified + b.failed
  }

  /** One send: who was notified before is passed over, and the others are tried, and lost if that fails. */
  lemma SentIs(b: Broadcast, s: Socket, fails: bool)
    ensures
      var c := Sent(b, s, fails);
      && c.pending == b.pending - {s} && c.trajectoryId == b.trajectoryId && c.onTrajectory == b.onTrajectory
      && c.attempts == (if s in b.notified then b.attempts else b.attempts + [s])
      && (s in c.notified <==> s in b.notified || !fails) && c.notified - {s} == b.notified - {s}
      && (s in c.failed <==> s in b.failed || (fails && s !in b.notified)) && c.failed - {s} == b.failed - {s}
      && (s in Lost(b, s, fails) <==> fails && s !in b.notified) && Lost(b, s, fails) <= {s}
  {
  }

  lemma StepConcerns(e: Event, a: Snapshot, b: Snapshot, k: nat)
    requires Follows(e, a, b) && k < |a.tasks|
    ensures k < |b.tasks| && Concerned(a.tasks[k]) <= Concerned(b.tasks[k])
    ensures a.tasks[k].onTrajectory ==> b.tasks[k].onTrajectory && b.tasks[k].pending <= a.tasks[k].pending
  {
  }

  /**
   No broadcast forgets anyone, whatever comes between its sends, in any run: whom it had to try at some point has been
   tried or is still to be tried later on. When nobody is left, all of them have been tried.
   */
  lemma {:induction false} NobodyForgotten(events: seq<Event>, states: seq<Snapshot>, i: nat, j: nat, k: nat)
    requires Trace(events, states) && i <= j <= |events| && k < |states[i].tasks|
    ensures k < |states[j].tasks| && Concerned(states[i].tasks[k]) <= Concerned(states[j].tasks[k])
    ensures states[j].tasks[k].pending == {} ==>
              states[i].tasks[k].pending <= states[j].tasks[k].notified + states[j].tasks[k].failed
    decreases j - i
  {
    if i < j {
      assert Follows(events[i], states[i], states[i + 1]);
      StepConcerns(events[i], states[i], states[i + 1], k);
      NobodyForgotten(events, states, i + 1, j, k);
    }
  }

  /** A broadcast starts with the subscribers of its project, and only an event of a flow or an evaluation does. */
  lemma StartIs(e: Event, a: Snapshot, b: Snapshot)
    requires Follows(e, a, b) && e.Start?
    ensures |b.tasks| == |a.tasks| + 1 && a.tasks <= b.tasks
    ensures
      var (t, p) := (b.tasks[|a.tasks|], e.projectId);
      && t.pending == (if e.flowOrEvaluation && p.Some? && p.value != "" then a.Listed(Project, p.value) else {})
      && t.attempts == [] && t.notified == {} && t.failed == {} && !t.onTrajectory && t.trajectoryId == e.trajectoryId
  {
  }

  /** When all of these were tried, it goes on to the subscribers of its trajectory. */
  lemma NextTopicIs(e: Event, a: Snapshot, b: Snapshot)
    requires Follows(e, a, b) && e.NextTopic? && Can(e, a)
    ensures e.task < |a.tasks| == |b.tasks| && a.tasks[e.task].pending == {} && !a.tasks[e.task].onTrajectory
    ensures
      var (t, u) := (a.tasks[e.task], b.tasks[e.task]);
      && u.pending == (if t.trajectoryId.Some? && t.trajectoryId.value != "" then
                         a.Listed(Trajectory, t.trajectoryId.value) else {})
      && u.attempts == t.attempts && u.notified == t.notified && u.failed == t.failed && u.onTrajectory
  {
  }

  /** What it makes of the topics, while the maps agree. */
  ghost predicate Relisted(e: Event, a: Snapshot, b: Snapshot) {
    forall kind, topic :: b.Listed(kind, topic) ==
      if Can(e, a) then SubscribersAfter(e, a.tasks, kind, topic, a.Listed(kind, topic)) else a.Listed(kind, topic)
  }

  ghost predicate Trace(events: seq<Event>, states: seq<Snapshot>) {
    |states| == |events| + 1 && forall k :: 0 <= k < |events| ==> Follows(events[k], states[k], states[k + 1])
  }

  lemma TraceSnoc(events: seq<Event>, states: seq<Snapshot>, e: Event, b: Snapshot)
    requires Trace(events, states) && Follows(e, states[|events|], b)
    ensures Trace(events + [e], states + [b])
  {
  }

  /** No dropped socket subscribes up to `n`, and so all states up to there are safe, and the topics as they should. */
  ghost predicate SafeUpTo(events: seq<Event>, states: seq<Snapshot>, n: nat)
    requires n <= |events| < |states|
  {
    && (forall k :: 0 <= k < n ==> !Disorderly(events[k], states[k]) && Relisted(events[k], states[k], states[k + 1]))
    && forall k :: 0 <= k <= n ==> Safe(states[k])
  }

  lemma SafeSnoc(events: seq<Event>, states: seq<Snapshot>, e: Event, b: Snapshot)
    requires |states| == |events| + 1 && SafeUpTo(events, states, |events|)
    requires !Disorderly(e, states[|events|]) && Relisted(e, states[|events|], b) && Safe(b)
    ensures SafeUpTo(events + [e], states + [b], |events| + 1)
  {
    var (more, later) := (events + [e], states + [b]);
    forall k | 0 <= k < |events| + 1
      ensures !Disorderly(more[k], later[k]) && Relisted(more[k], later[k], later[k + 1])
    {
      assert k < |events| ==> more[k] == events[k] && later[k + 1] == states[k + 1];
    }
  }

  lemma SafeStays(events: seq<Event>, states: seq<Snapshot>, e: Event, b: Snapshot, n: nat)
    requires |states| == |events| + 1 && n <= |events| && SafeUpTo(events, states, n)
    ensures SafeUpTo(events + [e], states + [b], n)
  {
    var (more, later) := (events + [e], states + [b]);
    forall k | 0 <= k < n ensures !Disorderly(more[k], later[k]) && Relisted(more[k], later[k], later[k + 1]) {
      assert more[k] == events[k] && later[k] == states[k] && later[k + 1] == states[k + 1];
    }
  }

  // ---------- what an event changes ----------

  /** Whom a send loses: nobody who was notified before, as nothing is sent to them. */
  function Lost(b: Broadcast, s: Socket, fails: bool): set<Socket> {
    if fails && s !in b.notified then {s} else {}
  }

  function Sent(b: Broadcast, s: Socket, fails: bool): Broadcast {
    if s in b.notified then b.(pending := b.pending - {s})
    else if fails then b.(pending := b.pending - {s}, attempts := b.attempts + [s], failed := b.failed + {s})
    else b.(pending := b.pending - {s}, attempts := b.attempts + [s], notified := b.notified + {s})
  }

  function ActiveAfter(e: Event, tasks: seq<Broadcast>, active: set<Socket>): set<Socket> {
    match e
    case Connect(s) => active + {s}
    case Disconnect(s) => active - {s}
    case Send(task, s, fails) => if task < |tasks| then active - Lost(tasks[task], s, fails) else active
    case _ => active
  }

  function SubscribersAfter(e: Event, tasks: seq<Broadcast>, kind: Kind, topic: string,
          members: set<Socket>): set<Socket> {
    match e
    case Subscribe(k, s, t) => if k == kind && t == topic then members + {s} else members
    case Unsubscribe(k, s, t) => if k == kind && t == topic then members - {s} else members
    case Disconnect(s) => members - {s}
    case Send(task, s, fails) => if task < |tasks| then members - Lost(tasks[task], s, fails) else members
    case _ => members
  }

  function TasksAfter(e: Event, tasks: seq<Broadcast>, reached: set<Socket>): seq<Broadcast> {
    match e
    case Start(_, _, trajectoryId) => tasks + [Broadcast(trajectoryId, false, reached, [], {}, {})]
    case Send(task, s, fails) => if task < |tasks| then tasks[task := Sent(tasks[task], s, fails)] else tasks
    case NextTopic(task) =>
      if task < |tasks| then tasks[task := tasks[task].(onTrajectory := true, pending := reached)] else tasks
    case _ => tasks
  }
}

/**
 The subscription index of the WebSocket connection manager: maps from topics to sockets and back, which
 must agree whatever is connected, subscribed, dropped or broadcast, and whichever sends fail.
 */
module Subscriptions {
  import opened Prelude

  type Socket = nat

  /** The two families of topics; the source has one method for each. */
  datatype Kind = Project | Trajectory

  datatype Own = Own(projects: set<string>, trajectories: set<string>) {
    function Of(kind: Kind): set<string> {
      if kind == Project then projects else trajectories
    }

    function With(kind: Kind, topics: set<string>): Own {
      if kind == Project then Own(topics, trajectories) else Own(projects, topics)
    }
  }

  type Index = map<string, set<Socket>>

  function Members(index: Index, topic: string): set<Socket> {
    if topic in index then index[topic] else {}
  }

  function Include(index: Index, topic: string, s: Socket): (r: Index)
    ensures forall t :: Members(r, t) == if t == topic then Members(index, t) + {s} else Members(index, t)
    ensures NoneEmpty(index) ==> NoneEmpty(r)
  {
    index[topic := Members(index, topic) + {s}]
  }

  /** Discards a member, and the topic with its last member. */
  function Exclude(index: Index, topic: string, s: Socket): (r: Index)
    ensures forall t :: Members(r, t) == if t == topic then Members(index, t) - {s} else Members(index, t)
    ensures NoneEmpty(index) ==> NoneEmpty(r)
  {
    if topic !in index then index
    else if index[topic] - {s} == {} then index - {topic}
    else index[topic := index[topic] - {s}]
  }

  predicate NoneEmpty(index: Index) {
    forall t <- index :: index[t] != {}
  }

  class ConnectionManager {
    var activeConnections: set<Socket>
    var projectSubscriptions: Index
    var trajectorySubscriptions: Index
    var socketSubscriptions: map<Socket, Own>

    constructor ()
      ensures Agree() && activeConnections == {}
    {
      activeConnections, projectSubscriptions, trajectorySubscriptions := {}, map[], map[];
      socketSubscriptions := map[];
    }

    function IndexOf(kind: Kind): Index
      reads this
    {
      if kind == Project then projectSubscriptions else trajectorySubscriptions
    }

    function Subscribers(kind: Kind, topic: string): set<Socket>
      reads this
    {
      Members(IndexOf(kind), topic)
    }

    /** The topics a socket lists for itself. */
    function Topics(s: Socket, kind: Kind): set<string>
      reads this
    {
      if s in socketSubscriptions then socketSubscriptions[s].Of(kind) else {}
    }

    /** Both directions say the same, no topic is empty, and exactly the active sockets are listed. */
    ghost predicate Agree()
      reads this
    {
      && (forall s :: s in activeConnections <==> s in socketSubscriptions)
      && NoneEmpty(projectSubscriptions) && NoneEmpty(trajectorySubscriptions)
      && forall kind, topic, s :: s in Subscribers(kind, topic) <==> topic in Topics(s, kind)
    }

    ghost predicate SubscribedTo(s: Socket, kind: Kind, topic: string)
      reads this
    {
      s in Subscribers(kind, topic)
    }

    /** `accepted` is the outcome of the handshake. A second connect forgets what the socket had subscribed to. */
    method Connect(s: Socket, accepted: bool) returns (raised: bool)
      modifies this
      ensures raised == !accepted
      ensures activeConnections == if accepted then old(activeConnections) + {s} else old(activeConnections)
      ensures forall r :: r in socketSubscriptions <==> r in old(socketSubscriptions) || (accepted && r == s)
      ensures forall kind, topic :: Subscribers(kind, topic) == old(Subscribers(kind, topic))
      ensures forall r, kind :: Topics(r, kind) == if accepted && r == s then {} else old(Topics(r, kind))
      ensures old(Agree()) ==>
                (Agree() <==> !accepted || forall kind, topic :: !old(SubscribedTo(s, kind, topic)))
    {
      if !accepted {
        return true;
      }
      activeConnections := activeConnections + {s};
      socketSubscriptions := socketSubscriptions[s := Own({}, {})];
      raised := false;
      if old(Agree()) {
        forall kind, topic ensures old(SubscribedTo(s, kind, topic)) <==> s in Subscribers(kind, topic) {
        }
        assert forall kind, topic :: topic !in Topics(s, kind);
        assert forall kind, topic, r :: r != s ==> (r in Subscribers(kind, topic) <==> topic in Topics(r, kind));
      }
    }

    /**
     Keeps the index in step exactly if the socket is connected: otherwise the topic is written before the lookup
     fails.
     */
    method Subscribe(kind: Kind, s: Socket, topic: string) returns (raised: bool)
      modifies this
      ensures raised == (s !in old(socketSubscriptions))
      ensures activeConnections == old(activeConnections)
      ensures forall r :: r in socketSubscriptions <==> r in old(socketSubscriptions)
      ensures forall k, t :: Subscribers(k, t) == old(Subscribers(k, t)) + if k == kind && t == topic then {s} else {}
      ensures forall r, k :: Topics(r, k) == old(Topics(r, k)) + if r == s && k == kind && !raised then {topic} else {}
      ensures old(Agree()) ==> (Agree() <==> !raised)
    {
      if kind == Project {
        projectSubscriptions := Include(projectSubscriptions, topic, s);
      } else {
        trajectorySubscriptions := Include(trajectorySubscriptions, topic, s);
      }
      if s !in socketSubscriptions {
        assert s in Subscribers(kind, topic) && topic !in Topics(s, kind);
        return true;
      }
      var own := socketSubscriptions[s];
      socketSubscriptions := socketSubscriptions[s := own.With(kind, own.Of(kind) + {topic})];
      raised := false;
    }

    method Unsubscribe(kind: Kind, s: Socket, topic: string)
      modifies this
      ensures activeConnections == old(activeConnections)
      ensures forall r :: r in socketSubscriptions <==> r in old(socketSubscriptions)
      ensures forall k, t :: Subscribers(k, t) == old(Subscribers(k, t)) - if k == kind && t == topic then {s} else {}
      ensures forall r, k :: Topics(r, k) == old(Topics(r, k)) - if r == s && k == kind then {topic} else {}
      ensures old(Agree()) ==> Agree()
    {
      if kind == Project {
        projectSubscriptions := Exclude(projectSubscriptions, topic, s);
      } else {
        trajectorySubscriptions := Exclude(trajectorySubscriptions, topic, s);
      }
      if s in socketSubscriptions {
        var own := socketSubscriptions[s];
        socketSubscriptions := socketSubscriptions[s := own.With(kind, own.Of(kind) - {topic})];
      }
    }

    /** The clean-up goes by what the socket lists for itself. */
    method Disconnect(s: Socket)
      modifies this
      ensures activeConnections == old(activeConnections) - {s}
      ensures forall r :: r in socketSubscriptions <==> r in old(socketSubscriptions) && r != s
      ensures forall k, t :: Subscribers(k, t) == old(Subscribers(k, t)) - if t in old(Topics(s, k)) then {s} else {}
      ensures forall r, k :: Topics(r, k) == if r == s then {} else old(Topics(r, k))
      ensures old(Agree()) ==> Agree() && forall k, t :: Subscribers(k, t) == old(Subscribers(k, t)) - {s}
    {
      activeConnections := activeConnections - {s};
      if s in socketSubscriptions {
        projectSubscriptions := ExcludeAll(projectSubscriptions, socketSubscriptions[s].projects, s);
        trajectorySubscriptions := ExcludeAll(trajectorySubscriptions, socketSubscriptions[s].trajectories, s);
        socketSubscriptions := socketSubscriptions - {s};
      }
    }

    method ExcludeAll(index: Index, topics: set<string>, s: Socket) returns (r: Index)
      ensures forall t :: Members(r, t) == Members(index, t) - if t in topics then {s} else {}
      ensures NoneEmpty(index) ==> NoneEmpty(r)
    {
      r := index;
      var left := topics;
      while left != {}
        invariant left <= topics
        invariant forall t :: Members(r, t) == Members(index, t) - if t in topics && t !in left then {s} else {}
        invariant NoneEmpty(index) ==> NoneEmpty(r)
      {
        var topic :| topic in left;
        r := Exclude(r, topic, s);
        left := left - {topic};
      }
    }

    /** The sockets that some disconnects do not take off a topic, as they do not list it for themselves. */
    function Staying(dropped: set<Socket>, kind: Kind, topic: string): set<Socket>
      reads this
    {
      set s | s in dropped && topic !in Topics(s, kind)
    }

    /**
     Sends to the members of one topic, skipping whom `notified` already lists; a failed send disconnects. Whether
     the maps agree or not.
     */
    method SendToTopic(targets: set<Socket>, fails: Socket -> bool, notified0: set<Socket>)
      returns (attempts: seq<Socket>, notified: set<Socket>, ghost dropped: set<Socket>)
      modifies this
      ensures Distinct(attempts) && forall s :: s in attempts <==> s in targets && s !in notified0
      ensures forall s :: s in notified <==> s in notified0 || (s in targets && !fails(s))
      ensures forall s :: s in dropped <==> s in targets && s !in notified0 && fails(s)
      ensures activeConnections == old(activeConnections) - dropped
      ensures forall r, k :: Topics(r, k) == if r in dropped then {} else old(Topics(r, k))
      ensures forall k, t :: Subscribers(k, t) == old(Subscribers(k, t)) - (dropped - old(Staying(dropped, k, t)))
      ensures old(Agree()) ==> Agree()
    {
      attempts, notified, dropped := [], notified0, {};
      var left := targets;
      while left != {}
        invariant left <= targets && Distinct(attempts)
        invariant forall s :: s in attempts <==> s in targets && s !in left && s !in notified0
        invariant forall s :: s in notified <==> s in notified0 || (s in targets && s !in left && !fails(s))
        invariant forall s :: s in dropped <==> s in targets && s !in left && s !in notified0 && fails(s)
        invariant activeConnections == old(activeConnections) - dropped
        invariant forall r, k :: Topics(r, k) == if r in dropped then {} else old(Topics(r, k))
        invariant forall k, t :: Subscribers(k, t) == old(Subscribers(k, t)) - (dropped - old(Staying(dropped, k, t)))
        invariant old(Agree()) ==> Agree()
      {
        var connection :| connection in left;
        left := left - {connection};
        if connection !in notified {
          attempts := attempts + [connection];
          if !fails(connection) {
            notified := notified + {connection};
          } else {
            Disconnect(connection);
            dropped := dropped + {connection};
          }
        }
      }
    }

    function ProjectTargets(flowOrEvaluation: bool, projectId: Option<string>): set<Socket>
      reads this
    {
      if flowOrEvaluation && Given(projectId) then Subscribers(Project, projectId.value) else {}
    }

    function TrajectoryTargets(trajectoryId: Option<string>): set<Socket>
      reads this
    {
      if Given(trajectoryId) then Subscribers(Trajectory, trajectoryId.value) else {}
    }

    /** Tried for the project, not reached, and still listed under the trajectory: tried again. */
    predicate TriedTwice(flowOrEvaluation: bool, projectId: Option<string>, trajectoryId: Option<string>,
            fails: Socket -> bool, s: Socket)
      reads this
    {
      && s in ProjectTargets(flowOrEvaluation, projectId) && s in TrajectoryTargets(trajectoryId)
      && fails(s) && trajectoryId.value !in Topics(s, Trajectory)
    }

    /** The two loops: for the trajectory, those are left out who were reached, or taken off it by the first loop. */
    method SendToBoth(flowOrEvaluation: bool, projectId: Option<string>, trajectoryId: Option<string>,
            fails: Socket -> bool)
      returns (first: seq<Socket>, second: seq<Socket>, notified: set<Socket>, ghost dropped: set<Socket>)
      modifies this
      ensures Distinct(first) && forall s :: s in first <==> s in old(ProjectTargets(flowOrEvaluation, projectId))
      ensures Distinct(second)
      ensures forall s :: s in second <==>
                (s in old(TrajectoryTargets(trajectoryId)) &&
                 (s in first ==> old(TriedTwice(flowOrEvaluation, projectId, trajectoryId, fails, s))))
      ensures forall s :: s in notified <==> (s in first || s in second) && !fails(s)
      ensures forall s :: s in dropped <==> (s in first || s in second) && fails(s)
      ensures activeConnections == old(activeConnections) - dropped
      ensures forall k, t :: Subscribers(k, t) == old(Subscribers(k, t)) - (dropped - old(Staying(dropped, k, t)))
      ensures old(Agree()) ==> Agree()
    {
      var targets: set<Socket> := {};
      if flowOrEvaluation && Given(projectId) && projectId.value in projectSubscriptions {
        targets := projectSubscriptions[projectId.value];
      }
      assert targets == ProjectTargets(flowOrEvaluation, projectId);
      ghost var before;
      first, notified, before := SendToTopic(targets, fails, {});
      targets := {};
      if Given(trajectoryId) && trajectoryId.value in trajectorySubscriptions {
        targets := trajectorySubscriptions[trajectoryId.value];
      }
      assert targets == TrajectoryTargets(trajectoryId);
      second, notified, dropped := SendToTopic(targets, fails, notified);
      dropped := before + dropped;
    }

    lemma NeverTwice(flowOrEvaluation: bool, projectId: Option<string>, trajectoryId: Option<string>,
            fails: Socket -> bool, s: Socket)
      requires Agree()
      ensures !TriedTwice(flowOrEvaluation, projectId, trajectoryId, fails, s)
    {
      if Given(trajectoryId) {
        assert s in Subscribers(Trajectory, trajectoryId.value) <==> trajectoryId.value in Topics(s, Trajectory);
      }
    }

    lemma NoneStay(dropped: set<Socket>, kind: Kind, topic: string)
      requires Agree()
      ensures Subscribers(kind, topic) - (dropped - Staying(dropped, kind, topic)) == Subscribers(kind, topic) - dropped
    {
      assert forall s :: s in Subscribers(kind, topic) <==> topic in Topics(s, kind);
    }

    /**
     Every subscriber of the project or the trajectory is tried, and exactly those whose send failed are
     disconnected. A socket is tried twice exactly if it is listed under both, its send fails, and it does not list
     the trajectory itself; while the maps agree there is none, and the failed are gone from every map.
     */
    method BroadcastEvent(flowOrEvaluation: bool, projectId: Option<string>, trajectoryId: Option<string>,
            fails: Socket -> bool)
      returns (attempts: seq<Socket>, notified: set<Socket>, ghost dropped: set<Socket>)
      modifies this
      ensures forall s :: multiset(attempts)[s] ==
                if old(TriedTwice(flowOrEvaluation, projectId, trajectoryId, fails, s)) then 2
                else if s in old(Audience(flowOrEvaluation, projectId, trajectoryId)) then 1 else 0
      ensures forall s :: s in notified <==> s in attempts && !fails(s)
      ensures forall s :: s in dropped <==> s in attempts && fails(s)
      ensures activeConnections == old(activeConnections) - dropped
      ensures forall k, t :: Subscribers(k, t) == old(Subscribers(k, t)) - (dropped - old(Staying(dropped, k, t)))
      ensures old(Agree()) ==> Agree() && Distinct(attempts)
      ensures old(Agree()) ==> (forall k, t :: Subscribers(k, t) == old(Subscribers(k, t)) - dropped)
    {
      if Agree() {
        forall s ensures !TriedTwice(flowOrEvaluation, projectId, trajectoryId, fails, s) {
          NeverTwice(flowOrEvaluation, projectId, trajectoryId, fails, s);
        }
        forall gone: set<Socket>, k, t
          ensures Subscribers(k, t) - (gone - Staying(gone, k, t)) == Subscribers(k, t) - gone
        {
          NoneStay(gone, k, t);
        }
      }
      var first, second;
      first, second, notified, dropped := SendToBoth(flowOrEvaluation, projectId, trajectoryId, fails);
      attempts := first + second;
      forall s ensures multiset(attempts)[s] == (if s in first then 1 else 0) + if s in second then 1 else 0 {
        CountBoth(first, second, s);
      }
      if old(Agree()) {
        DistinctBoth(first, second);
      }
    }

    /** The subscribers of the project, for events of a flow or an evaluation, and those of the trajectory. */
    lemma AudienceIs(flowOrEvaluation: bool, projectId: Option<string>, trajectoryId: Option<string>, s: Socket)
      ensures s in Audience(flowOrEvaluation, projectId, trajectoryId) <==>
              (flowOrEvaluation && projectId.Some? && projectId.value != ""
               && s in Subscribers(Project, projectId.value))
              || (trajectoryId.Some? && trajectoryId.value != "" && s in Subscribers(Trajectory, trajectoryId.value))
    {
    }

    /** The sockets an event is meant for. */
    function Audience(flowOrEvaluation: bool, projectId: Option<string>, trajectoryId: Option<string>): set<Socket>
      reads this
    {
      ProjectTargets(flowOrEvaluation, projectId) + TrajectoryTargets(trajectoryId)
    }
  }

  lemma {:induction false} CountOne(a: seq<Socket>, s: Socket)
    requires Distinct(a)
    ensures multiset(a)[s] == if s in a then 1 else 0
  {
    if a != [] {
      CountOne(a[1..], s);
      assert a == [a[0]] + a[1..];
      if a[0] == s {
        assert s !in a[1..];
      }
    }
  }

  lemma CountBoth(a: seq<Socket>, b: seq<Socket>, s: Socket)
    requires Distinct(a) && Distinct(b)
    ensures multiset(a + b)[s] == (if s in a then 1 else 0) + if s in b then 1 else 0
  {
    CountOne(a, s);
    CountOne(b, s);
  }

  lemma DistinctBoth(a: seq<Socket>, b: seq<Socket>)
    requires Distinct(a) && Distinct(b) && forall s :: s in a ==> s !in b
    ensures Distinct(a + b)
  {
    forall i, j | 0 <= i < j < |a + b| ensures (a + b)[i] != (a + b)[j] {
      if i < |a| <= j {
        assert a[i] in a && b[j - |a|] in b;
      }
    }
  }

  /** A subscription behind a failed send stays in the index, also when the socket is disconnected once more. */
  method StraySubscription(s: Socket, topic: string) returns (m: ConnectionManager)
    ensures s !in m.activeConnections && s in m.Subscribers(Project, topic) && !m.Agree()
  {
    m := new ConnectionManager();
    var raised := m.Connect(s, true);
    m.Disconnect(s);
    raised := m.Subscribe(Project, s, topic);
    m.Disconnect(s);
    assert topic !in m.Topics(s, Project);
  }

  /** A socket that subscribes to both behind a failed send is tried twice by one broadcast. */
  method StrayTriedTwice(s: Socket) returns (attempts: seq<Socket>)
    ensures multiset(attempts)[s] == 2
  {
    var m := new ConnectionManager();
    var raised := m.Connect(s, true);
    m.Disconnect(s);
    raised := m.Subscribe(Project, s, "p");
    raised := m.Subscribe(Trajectory, s, "t");
    assert m.TriedTwice(true, Some("p"), Some("t"), _ => true, s);
    var notified;
    ghost var dropped;
    attempts, notified, dropped := m.BroadcastEvent(true, Some("p"), Some("t"), _ => true);
  }

  /** A second connect makes the socket forget a topic that still lists it. */
  method SecondConnect(s: Socket, topic: string) returns (m: ConnectionManager)
    ensures s in m.activeConnections && s in m.Subscribers(Project, topic) && m.Topics(s, Project) == {} && !m.Agree()
  {
    m := new ConnectionManager();
    var raised := m.Connect(s, true);
    raised := m.Subscribe(Project, s, topic);
    raised := m.Connect(s, true);
    assert topic !in m.Topics(s, Project);
  }

  /** An id that is neither missing nor empty. */
  predicate Given(id: Option<string>) {
    id.Some? && id.value != ""
  }
}

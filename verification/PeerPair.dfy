/** Two peers, each with its own `ChatConnection`, and the physical connections between them.

    Every write-lock section, every result of a background dial and every transport event is one
    action; the spawned tasks that have not run yet are kept in sets, so that any order of them is a
    run. `Low` is the peer with the smaller endpoint id. Cancelling either end of a connection closes
    both. */
module PeerPair {
  import opened Options
  import opened Connection

  datatype Side = Low | High {
    function Other(): Side {
      if Low? then High else Low
    }
  }

  /** One peer: its connection object, its unfinished background tasks, and what it has seen.
      - `dialing`: dials sent to the transport and not answered yet
      - `inbox`: handles made by the transport and not yet passed to `update_handle`
      - `notices`: spawned `set_state_disconnected_if_id_matches` tasks, by expected id
      - `dialLog`, `acceptLog`: connections passed to `update_handle` so far, by origin
      - `seen`: the notification the manager looked at last, `resetFor`: the id it last reset for */
  datatype Peer = Peer(
    link: Link, dialing: set<nat>, inbox: set<Handle>, notices: set<nat>,
    dialLog: seq<nat>, acceptLog: seq<nat>, seen: Option<nat>, resetFor: Option<nat>)
  {
    function Log(o: Origin): seq<nat> {
      if o.Dial? then dialLog else acceptLog
    }

    function Logged(h: Handle): Peer {
      if h.origin.Dial? then this.(dialLog := dialLog + [h.conn])
      else this.(acceptLog := acceptLog + [h.conn])
    }

    ghost predicate Received(c: nat) {
      c in dialLog || c in acceptLog
    }

    ghost predicate Pending(c: nat) {
      exists h :: h in inbox && h.conn == c
    }

    ghost predicate HoldsOn(c: nat) {
      link.state.Connected? && link.state.handle.conn == c
    }
  }

  /** `dialer[c]` is the peer that dialed connection `c`; `failed` are the connections the transport
      lost by itself. */
  datatype System = System(low: Peer, high: Peer, dialer: seq<Side>, failed: set<nat>, nextId: nat) {
    function At(p: Side): Peer {
      if p.Low? then low else high
    }

    function With(p: Side, x: Peer): System {
      if p.Low? then this.(low := x) else this.(high := x)
    }

    function WithLink(p: Side, l: Link): System {
      With(p, At(p).(link := l))
    }

    ghost predicate Closed(c: nat) {
      c in failed || c in low.link.cancelled || c in high.link.cancelled
    }

    /** The end of connection `c` that peer `p` owns. */
    function EndOrigin(p: Side, c: nat): Origin
      requires c < |dialer|
    {
      if dialer[c] == p then Dial else Accept
    }
  }

  function NewPeer(): Peer {
    Peer(Link(Disconnected, PublicDisconnected, 0, {}), {}, {}, {}, [], [], None, None)
  }

  function Init(): System {
    System(NewPeer(), NewPeer(), [], {}, 0)
  }

  datatype Action =
    | StartReconnect(p: Side)              // `reconnect`: claim the dial if disconnected
    | DialConnects(p: Side, task: nat)     // the transport makes both ends of a new connection
    | DialFails(p: Side, task: nat)        // the transport reports an error, or drops the answer
    | Deliver(p: Side, h: Handle)          // `update_handle`
    | EndFails(p: Side, h: Handle)         // one end is lost before it reaches `update_handle`
    | ConnFails(c: nat)                    // the transport loses an established connection
    | SpawnNotice(p: Side, id: nat)        // `receive` or `send_message` finds a closed channel
    | ApplyNotice(p: Side, id: nat)        // the spawned task runs
    | Close(p: Side)                       // `close`
    | Observe(p: Side)                     // the manager looks at the state notification

  /** A notice carries an id that was current when its task read it; a notice with the id that is
      current now is spawned only when the channel of that connection is closed. */
  ghost predicate Enabled(s: System, a: Action) {
    match a
    case StartReconnect(p) => true
    case DialConnects(p, t) => t in s.At(p).dialing
    case DialFails(p, t) => t in s.At(p).dialing
    case Deliver(p, h) => h in s.At(p).inbox
    case EndFails(p, h) => h in s.At(p).inbox
    case ConnFails(c) => c < |s.dialer|
    case SpawnNotice(p, id) =>
      && id < s.nextId
      && (forall h :: h in s.At(p).inbox ==> h.id != id)
      && (s.At(p).link.state.Connected? && s.At(p).link.state.handle.id == id
          ==> s.Closed(s.At(p).link.state.handle.conn))
    case ApplyNotice(p, id) => id in s.At(p).notices
    case Close(p) => true
    case Observe(p) => true
  }

  function Start(s: System, p: Side): System {
    var x := s.At(p);
    var y := x.(link := AfterReconnectStart(x.link));
    if x.link.state.Disconnected? then
      s.With(p, y.(dialing := x.dialing + {s.nextId})).(nextId := s.nextId + 1)
    else s.With(p, y)
  }

  function Connects(s: System, p: Side, task: nat): System {
    var c := |s.dialer|;
    var x, y := s.At(p), s.At(p.Other());
    s.With(p, x.(dialing := x.dialing - {task}, inbox := x.inbox + {Handle(s.nextId, Dial, c)}))
     .With(p.Other(), y.(inbox := y.inbox + {Handle(s.nextId + 1, Accept, c)}))
     .(dialer := s.dialer + [p], nextId := s.nextId + 2)
  }

  function Delivered(s: System, p: Side, h: Handle): System {
    var x := s.At(p);
    s.With(p, x.Logged(h).(inbox := x.inbox - {h},
                           link := AfterUpdate(x.link, p.Low?, h, s.nextId)))
     .(nextId := s.nextId + 1)
  }

  function EndLost(s: System, p: Side, h: Handle): System {
    var x := s.At(p);
    s.With(p, x.(inbox := x.inbox - {h},
                 link := if h.origin.Dial? then AfterDialFailure(x.link) else x.link))
     .(failed := s.failed + {h.conn})
  }

  /** The id the manager last reset its synchronisation for, once it has looked at the notification. */
  function ResetFor(l: Link, before: Option<nat>): Option<nat> {
    if l.published.PublicConnected? then Some(l.published.id) else before
  }

  /** `handle_connection_state_change` on the latest notification. */
  function Observed(x: Peer): Peer {
    x.(seen := Some(x.link.version), resetFor := ResetFor(x.link, x.resetFor))
  }

  function Apply(s: System, a: Action): System {
    match a
    case StartReconnect(p) => Start(s, p)
    case DialConnects(p, t) => Connects(s, p, t)
    case DialFails(p, t) =>
      s.With(p, s.At(p).(dialing := s.At(p).dialing - {t}, link := AfterDialFailure(s.At(p).link)))
    case Deliver(p, h) => Delivered(s, p, h)
    case EndFails(p, h) => EndLost(s, p, h)
    case ConnFails(c) => s.(failed := s.failed + {c})
    case SpawnNotice(p, id) => s.With(p, s.At(p).(notices := s.At(p).notices + {id}))
    case ApplyNotice(p, id) =>
      s.With(p, s.At(p).(notices := s.At(p).notices - {id}, link := AfterDisconnect(s.At(p).link, id)))
    case Close(p) => s.WithLink(p, AfterClose(s.At(p).link))
    case Observe(p) => s.With(p, Observed(s.At(p)))
  }

  function Exec(s: System, acts: seq<Action>): System {
    if acts == [] then s
    else Apply(Exec(s, acts[..|acts| - 1]), acts[|acts| - 1])
  }

  /** `acts` is a run from `s`. */
  ghost predicate Run(s: System, acts: seq<Action>) {
    acts == [] ||
    (Run(s, acts[..|acts| - 1]) && Enabled(Exec(s, acts[..|acts| - 1]), acts[|acts| - 1]))
  }

  // ----- what every step keeps

  ghost predicate OwnEnd(s: System, p: Side, h: Handle) {
    h.conn < |s.dialer| && h.id < s.nextId && h.origin == s.EndOrigin(p, h.conn)
  }

  /** Handles on their way to a peer are new to it and have distinct ids. */
  ghost predicate InboxOk(s: System, p: Side) {
    var x := s.At(p);
    && (forall h :: h in x.inbox ==> OwnEnd(s, p, h) && !x.Received(h.conn))
    && (forall h, k :: h in x.inbox && k in x.inbox && h != k ==> h.id != k.id && h.conn != k.conn)
    && (x.link.state.Connected? ==>
          && OwnEnd(s, p, x.link.state.handle)
          && (forall h :: h in x.inbox ==> h.id != x.link.state.handle.id))
  }

  /** Every handle a peer was given is the current one or has been shut down, never both. */
  ghost predicate Conserved(s: System, p: Side) {
    var x := s.At(p);
    && (forall c :: x.Received(c) <==> c in x.link.cancelled + x.link.Current())
    && x.link.cancelled !! x.link.Current()
    && (forall c :: c in x.dialLog ==> c < |s.dialer| && s.dialer[c] == p)
    && (forall c :: c in x.acceptLog ==> c < |s.dialer| && s.dialer[c] != p)
  }

  /** Every connection has reached the peer, is on its way there, or was lost by the transport. */
  ghost predicate Accounted(s: System, p: Side) {
    forall c :: 0 <= c < |s.dialer| ==> c in s.failed || s.At(p).Received(c) || s.At(p).Pending(c)
  }

  /** A notice that would match the current handle belongs to a closed connection. */
  ghost predicate NoticesOk(s: System, p: Side) {
    var x := s.At(p);
    forall id :: id in x.notices ==>
      && id < s.nextId
      && (forall h :: h in x.inbox ==> h.id != id)
      && (x.link.state.Connected? && x.link.state.handle.id == id ==> s.Closed(x.link.state.handle.conn))
  }

  /** Reconnecting is backed by a dial that has not come back yet. */
  ghost predicate DialBacked(x: Peer) {
    x.link.state.Reconnecting? ==> x.dialing != {} || exists h :: h in x.inbox && h.origin == Dial
  }

  /** The watch channel mirrors the state, and the manager acted on what it saw last. */
  ghost predicate Mirrored(x: Peer) {
    && x.link.published == Publish(x.link.state)
    && (x.seen.Some? ==> x.seen.value <= x.link.version)
    && (x.seen == Some(x.link.version) && x.link.state.Connected?
        ==> x.resetFor == Some(x.link.state.handle.id))
  }

  ghost predicate PeerOk(s: System, p: Side) {
    InboxOk(s, p) && Conserved(s, p) && Accounted(s, p) && NoticesOk(s, p)
    && DialBacked(s.At(p)) && Mirrored(s.At(p))
  }

  ghost predicate Inv(s: System) {
    PeerOk(s, Low) && PeerOk(s, High)
  }

  /** A peer that takes no part in a step is not disturbed by it. */
  lemma OtherKept(s: System, s': System, q: Side)
    requires PeerOk(s, q) && s'.At(q) == s.At(q)
    requires s'.dialer == s.dialer && s.nextId <= s'.nextId && s.failed <= s'.failed
    requires forall c :: s.Closed(c) ==> s'.Closed(c)
    ensures PeerOk(s', q)
  {
  }

  lemma BothKept(s: System, s': System, p: Side)
    requires Inv(s) && s'.At(p.Other()) == s.At(p.Other())
    requires s'.dialer == s.dialer && s.nextId <= s'.nextId && s.failed <= s'.failed
    requires s.At(p).link.cancelled <= s'.At(p).link.cancelled
    requires PeerOk(s', p)
    ensures Inv(s')
  {
    OtherKept(s, s', p.Other());
  }

  lemma StartKept(s: System, p: Side)
    requires Inv(s)
    ensures Inv(Start(s, p))
  {
    BothKept(s, Start(s, p), p);
  }

  lemma DialFailsKept(s: System, p: Side, t: nat)
    requires Inv(s)
    ensures Inv(Apply(s, DialFails(p, t)))
  {
    BothKept(s, Apply(s, DialFails(p, t)), p);
  }

  lemma NoticeKept(s: System, p: Side, id: nat)
    requires Inv(s) && id in s.At(p).notices
    ensures Inv(Apply(s, ApplyNotice(p, id)))
  {
    BothKept(s, Apply(s, ApplyNotice(p, id)), p);
  }

  lemma SpawnKept(s: System, p: Side, id: nat)
    requires Inv(s) && Enabled(s, SpawnNotice(p, id))
    ensures Inv(Apply(s, SpawnNotice(p, id)))
  {
    BothKept(s, Apply(s, SpawnNotice(p, id)), p);
  }

  lemma CloseKept(s: System, p: Side)
    requires Inv(s)
    ensures Inv(Apply(s, Close(p)))
  {
    BothKept(s, Apply(s, Close(p)), p);
  }

  lemma ObserveKept(s: System, p: Side)
    requires Inv(s)
    ensures Inv(Apply(s, Observe(p)))
  {
    BothKept(s, Apply(s, Observe(p)), p);
  }

  lemma EndLostKept(s: System, p: Side, h: Handle)
    requires Inv(s) && h in s.At(p).inbox
    ensures Inv(EndLost(s, p, h))
  {
    var s' := EndLost(s, p, h);
    EndLostShared(s, p, h);
    assert DialBacked(s'.At(p)) && Mirrored(s'.At(p));
    BothKept(s, s', p);
  }

  lemma EndLostShared(s: System, p: Side, h: Handle)
    requires InboxOk(s, p) && Conserved(s, p) && Accounted(s, p) && NoticesOk(s, p)
    requires h in s.At(p).inbox
    ensures
      var s' := EndLost(s, p, h);
      InboxOk(s', p) && Conserved(s', p) && Accounted(s', p) && NoticesOk(s', p)
  {
  }

  lemma DeliverKept(s: System, p: Side, h: Handle)
    requires Inv(s) && h in s.At(p).inbox
    ensures Inv(Delivered(s, p, h))
  {
    DeliverInbox(s, p, h);
    DeliverConserved(s, p, h);
    DeliverAccounted(s, p, h);
    DeliverNotices(s, p, h);
    DeliverLocal(s, p, h);
    BothKept(s, Delivered(s, p, h), p);
  }

  lemma DeliverInbox(s: System, p: Side, h: Handle)
    requires InboxOk(s, p) && h in s.At(p).inbox
    ensures InboxOk(Delivered(s, p, h), p)
  {
  }

  lemma DeliverConserved(s: System, p: Side, h: Handle)
    requires InboxOk(s, p) && Conserved(s, p) && h in s.At(p).inbox
    ensures Conserved(Delivered(s, p, h), p)
  {
  }

  lemma DeliverAccounted(s: System, p: Side, h: Handle)
    requires Accounted(s, p) && h in s.At(p).inbox
    ensures Accounted(Delivered(s, p, h), p)
  {
  }

  lemma DeliverNotices(s: System, p: Side, h: Handle)
    requires InboxOk(s, p) && NoticesOk(s, p) && h in s.At(p).inbox
    ensures NoticesOk(Delivered(s, p, h), p)
  {
  }

  lemma DeliverLocal(s: System, p: Side, h: Handle)
    requires Mirrored(s.At(p))
    ensures DialBacked(Delivered(s, p, h).At(p)) && Mirrored(Delivered(s, p, h).At(p))
  {
  }

  lemma ConnectsKept(s: System, p: Side, t: nat)
    requires Inv(s)
    ensures Inv(Connects(s, p, t))
  {
    ConnectsInbox(s, p, t, Low);
    ConnectsInbox(s, p, t, High);
    ConnectsRest(s, p, t, Low);
    ConnectsRest(s, p, t, High);
  }

  lemma ConnectsInbox(s: System, p: Side, t: nat, q: Side)
    requires InboxOk(s, q) && Conserved(s, q)
    ensures InboxOk(Connects(s, p, t), q) && Conserved(Connects(s, p, t), q)
  {
  }

  lemma ConnectsRest(s: System, p: Side, t: nat, q: Side)
    requires Accounted(s, q) && NoticesOk(s, q) && DialBacked(s.At(q)) && Mirrored(s.At(q))
    ensures
      var s' := Connects(s, p, t);
      Accounted(s', q) && NoticesOk(s', q) && DialBacked(s'.At(q)) && Mirrored(s'.At(q))
  {
    var s' := Connects(s, p, t);
    var h := if q == p then Handle(s.nextId, Dial, |s.dialer|) else Handle(s.nextId + 1, Accept, |s.dialer|);
    assert h in s'.At(q).inbox;
  }

  lemma StepKeepsInv(s: System, a: Action)
    requires Inv(s) && Enabled(s, a)
    ensures Inv(Apply(s, a))
  {
    match a
    case StartReconnect(p) => StartKept(s, p);
    case DialConnects(p, t) => ConnectsKept(s, p, t);
    case DialFails(p, t) => DialFailsKept(s, p, t);
    case Deliver(p, h) => DeliverKept(s, p, h);
    case EndFails(p, h) => EndLostKept(s, p, h);
    case ConnFails(c) => OtherKept(s, Apply(s, a), Low); OtherKept(s, Apply(s, a), High);
    case SpawnNotice(p, id) => SpawnKept(s, p, id);
    case ApplyNotice(p, id) => NoticeKept(s, p, id);
    case Close(p) => CloseKept(s, p);
    case Observe(p) => ObserveKept(s, p);
  }

  /** The invariant holds in every state of every run. */
  lemma {:induction false} RunKeepsInv(acts: seq<Action>)
    requires Run(Init(), acts)
    ensures Inv(Exec(Init(), acts))
  {
    if acts != [] {
      var before := acts[..|acts| - 1];
      RunKeepsInv(before);
      StepKeepsInv(Exec(Init(), before), acts[|acts| - 1]);
    }
  }

  // ----- theorems over all runs

  /** Nothing is left to happen by itself: no handle is on its way to a peer, and no peer holds a
      connection whose closing it has still to notice. */
  ghost predicate Quiescent(s: System) {
    && s.low.inbox == {} && s.high.inbox == {}
    && (s.low.link.state.Connected? ==> !s.Closed(s.low.link.state.handle.conn))
    && (s.high.link.state.Connected? ==> !s.Closed(s.high.link.state.handle.conn))
  }

  /** Whatever dials, accepts, glare, failures and stale notices came before: when nothing is
      pending, both peers are unconnected or both hold the two ends of one connection. */
  lemma QuiescentAgreement(acts: seq<Action>)
    requires Run(Init(), acts) && Quiescent(Exec(Init(), acts))
    ensures
      var s := Exec(Init(), acts);
      && (s.low.link.state.Connected? <==> s.high.link.state.Connected?)
      && (s.low.link.state.Connected? ==>
            && s.low.link.state.handle.conn == s.high.link.state.handle.conn
            && s.low.link.state.handle.origin != s.high.link.state.handle.origin)
  {
    RunKeepsInv(acts);
    var s := Exec(Init(), acts);
    if s.low.link.state.Connected? {
      HeldAtBothEnds(s, Low);
    }
    if s.high.link.state.Connected? {
      HeldAtBothEnds(s, High);
    }
  }

  lemma HeldAtBothEnds(s: System, p: Side)
    requires Inv(s) && Quiescent(s) && s.At(p).link.state.Connected?
    ensures s.At(p.Other()).HoldsOn(s.At(p).link.state.handle.conn)
    ensures s.At(p.Other()).link.state.handle.origin != s.At(p).link.state.handle.origin
  {
    var c, q := s.At(p).link.state.handle.conn, p.Other();
    assert OwnEnd(s, p, s.At(p).link.state.handle);
    assert Accounted(s, q) && Conserved(s, q) && InboxOk(s, q);
    assert s.At(q).Received(c);
    assert c in s.At(q).link.Current();
  }

  /** Of all handles ever given to a peer, exactly the current one is not shut down; and a spawned
      disconnect changes the peer only if it carries the current id of a connection that is closed
      already. */
  lemma HandleConservation(acts: seq<Action>, p: Side)
    requires Run(Init(), acts)
    ensures
      var s := Exec(Init(), acts);
      var x := s.At(p);
      && (forall c :: x.Received(c) && c !in x.link.cancelled <==> x.HoldsOn(c))
      && (forall c :: c in x.link.cancelled ==> x.Received(c))
      && (forall id :: id in x.notices && AfterDisconnect(x.link, id) != x.link ==>
            x.link.state.Connected? && x.link.state.handle.id == id && s.Closed(x.link.state.handle.conn))
  {
    RunKeepsInv(acts);
    assert PeerOk(Exec(Init(), acts), p);
  }

  /** A reconnecting peer has a dial outstanding, and whichever outstanding dial comes back, with a
      handle, with an error or with a handle that is lost, the peer stops reconnecting. */
  lemma NeverStuckReconnecting(acts: seq<Action>, p: Side)
    requires Run(Init(), acts)
    ensures
      var s := Exec(Init(), acts);
      var x := s.At(p);
      && (x.link.state.Reconnecting? ==> x.dialing != {} || exists h :: h in x.inbox && h.origin == Dial)
      && (forall t :: t in x.dialing ==> !Apply(s, DialFails(p, t)).At(p).link.state.Reconnecting?)
      && (forall h :: h in x.inbox ==> Apply(s, Deliver(p, h)).At(p).link.state.Connected?)
      && (forall h :: h in x.inbox && h.origin == Dial ==>
            !Apply(s, EndFails(p, h)).At(p).link.state.Reconnecting?)
  {
    RunKeepsInv(acts);
    var s := Exec(Init(), acts);
    assert DialBacked(s.At(p));
    forall t | t in s.At(p).dialing
      ensures !Apply(s, DialFails(p, t)).At(p).link.state.Reconnecting?
    {
      DialFailureResolves(s, p, t);
    }
    forall h | h in s.At(p).inbox
      ensures Apply(s, Deliver(p, h)).At(p).link.state.Connected?
      ensures h.origin == Dial ==> !Apply(s, EndFails(p, h)).At(p).link.state.Reconnecting?
    {
      HandleResolves(s, p, h);
    }
  }

  lemma DialFailureResolves(s: System, p: Side, t: nat)
    ensures !Apply(s, DialFails(p, t)).At(p).link.state.Reconnecting?
  {
  }

  lemma HandleResolves(s: System, p: Side, h: Handle)
    ensures Apply(s, Deliver(p, h)).At(p).link.state.Connected?
    ensures h.origin == Dial ==> !Apply(s, EndFails(p, h)).At(p).link.state.Reconnecting?
  {
  }

  /** A manager that has looked at the latest notification of a connected peer last reset its
      synchronisation for exactly the current connection id, however many notifications were
      coalesced and however often the id was rotated. */
  lemma NoMissedResync(acts: seq<Action>, p: Side)
    requires Run(Init(), acts)
    ensures
      var x := Exec(Init(), acts).At(p);
      x.seen == Some(x.link.version) && x.link.state.Connected? ==>
        x.resetFor == Some(x.link.state.handle.id)
  {
    RunKeepsInv(acts);
    assert Mirrored(Exec(Init(), acts).At(p));
  }

  /** Every handle given to a peer, taken or refused, publishes a connection id that was not current
      before and that no notice under way carries: the manager has to resynchronise, and no disconnect
      found earlier can hit. */
  lemma EveryHandleIsNews(acts: seq<Action>, p: Side, h: Handle)
    requires Run(Init(), acts) && h in Exec(Init(), acts).At(p).inbox
    ensures
      var s := Exec(Init(), acts);
      var x, y := s.At(p), Apply(s, Deliver(p, h)).At(p);
      && y.link.published.PublicConnected? && y.link.published != x.link.published
      && y.link.published.id !in y.notices
      && y.link.version > x.link.version && y.seen != Some(y.link.version)
  {
    RunKeepsInv(acts);
    HandleIsNews(Exec(Init(), acts), p, h);
  }

  lemma HandleIsNews(s: System, p: Side, h: Handle)
    requires PeerOk(s, p) && h in s.At(p).inbox
    ensures
      var x, y := s.At(p), Delivered(s, p, h).At(p);
      && y.link.published.PublicConnected? && y.link.published != x.link.published
      && y.link.published.id !in y.notices
      && y.link.version > x.link.version && y.seen != Some(y.link.version)
  {
  }

  /** Looking at the notification catches up: the manager has then seen the latest one, and has reset its
      synchronisation for the id the peer holds. */
  lemma ObserveCatchesUp(acts: seq<Action>, p: Side)
    requires Run(Init(), acts)
    ensures
      var x := Apply(Exec(Init(), acts), Observe(p)).At(p);
      && x.link == Exec(Init(), acts).At(p).link && x.seen == Some(x.link.version)
      && (x.link.state.Connected? ==> x.resetFor == Some(x.link.state.handle.id))
  {
    RunKeepsInv(acts);
  }

  /** In every run, what is published tells the state of the peer and the id it holds. */
  lemma PublishedMirrors(acts: seq<Action>, p: Side)
    requires Run(Init(), acts)
    ensures Mirrors(Exec(Init(), acts).At(p).link.published, Exec(Init(), acts).At(p).link.state)
  {
    RunKeepsInv(acts);
    var l := Exec(Init(), acts).At(p).link;
    MirrorsIsPublish(l.published, l.state);
  }

  // ----- one dial at a time

  /** Step `i` of a run claims a dial for `p`. */
  ghost predicate Claims(acts: seq<Action>, i: nat, p: Side)
    requires i < |acts|
  {
    acts[i] == StartReconnect(p) && Exec(Init(), acts[..i]).At(p).link.state.Disconnected?
  }

  /** The step ends the reconnecting of `p`: a dial of `p` failed or its end was lost, a handle reached
      `p`, or `p` was closed. */
  ghost predicate EndsDial(a: Action, p: Side) {
    match a
    case DialFails(q, _) => q == p
    case EndFails(q, h) => q == p && h.origin == Dial
    case Deliver(q, _) => q == p
    case Close(q) => q == p
    case _ => false
  }

  lemma StepStaysReconnecting(s: System, a: Action, p: Side)
    requires s.At(p).link.state.Reconnecting? && !EndsDial(a, p)
    ensures Apply(s, a).At(p).link.state.Reconnecting?
  {
  }

  /** `reconnect` never leaves a peer disconnected: it is reconnecting, or was connected already. */
  lemma StartLeavesDisconnected(s: System, p: Side)
    ensures
      var l, l' := s.At(p).link, Apply(s, StartReconnect(p)).At(p).link;
      if l.state.Disconnected? then l'.state.Reconnecting? && l'.cancelled == l.cancelled else l' == l
  {
  }

  ghost predicate ReconnectingAt(acts: seq<Action>, i: nat, p: Side)
    requires i <= |acts|
  {
    Exec(Init(), acts[..i]).At(p).link.state.Reconnecting?
  }

  lemma ClaimReconnects(acts: seq<Action>, i: nat, p: Side)
    requires i < |acts| && Claims(acts, i, p)
    ensures ReconnectingAt(acts, i + 1, p)
  {
    assert acts[..i + 1][..i] == acts[..i];
    StartLeavesDisconnected(Exec(Init(), acts[..i]), p);
  }

  lemma StaysReconnecting(acts: seq<Action>, i: nat, p: Side)
    requires i < |acts| && ReconnectingAt(acts, i, p) && !EndsDial(acts[i], p)
    ensures ReconnectingAt(acts, i + 1, p)
  {
    assert acts[..i + 1][..i] == acts[..i];
    StepStaysReconnecting(Exec(Init(), acts[..i]), acts[i], p);
  }

  /** A peer that claimed a dial is reconnecting until something ends that. */
  lemma {:induction false} ReconnectsUntil(acts: seq<Action>, i: nat, j: nat, p: Side)
    requires i < j <= |acts| && Claims(acts, i, p)
    requires forall k :: i < k < j ==> !EndsDial(acts[k], p)
    ensures ReconnectingAt(acts, j, p)
  {
    if j == i + 1 {
      ClaimReconnects(acts, i, p);
    } else {
      ReconnectsUntil(acts, i, j - 1, p);
      StaysReconnecting(acts, j - 1, p);
    }
  }

  /** One dial at a time: between two claims of one peer, a dial of it came back without a connection, a
      handle reached it, or it was closed. */
  lemma OneDialAtATime(acts: seq<Action>, i: nat, j: nat, p: Side)
    requires i < j < |acts| && Claims(acts, i, p) && Claims(acts, j, p)
    ensures exists k :: i < k < j && EndsDial(acts[k], p)
  {
    if forall k :: i < k < j ==> !EndsDial(acts[k], p) {
      ReconnectsUntil(acts, i, j, p);
    }
  }

  // ----- settling

  ghost function Stale(s: System, p: Side): nat {
    if s.At(p).link.state.Connected? && s.Closed(s.At(p).link.state.handle.conn) then 1 else 0
  }

  /** How much can still happen by itself. */
  ghost function Unsettled(s: System): nat {
    3 * (|s.low.inbox| + |s.high.inbox|) + Stale(s, Low) + Stale(s, High)
  }

  ghost predicate Settling(a: Action) {
    a.Deliver? || a.SpawnNotice? || a.ApplyNotice? || a.Observe?
  }

  /** The step delivers a handle or disconnects a peer. */
  ghost predicate Effective(s: System, a: Action) {
    a.Deliver? || (a.ApplyNotice? && AfterDisconnect(s.At(a.p).link, a.id) != s.At(a.p).link)
  }

  lemma DeliverSettles(s: System, p: Side, h: Handle)
    requires h in s.At(p).inbox
    ensures Unsettled(Delivered(s, p, h)) < Unsettled(s)
  {
    assert Delivered(s, p, h).At(p).inbox == s.At(p).inbox - {h};
    assert Delivered(s, p, h).At(p.Other()).inbox == s.At(p.Other()).inbox;
  }

  lemma NoticeSettles(s: System, p: Side, id: nat)
    requires PeerOk(s, p) && id in s.At(p).notices
    ensures
      var a := ApplyNotice(p, id);
      Unsettled(Apply(s, a)) + (if Effective(s, a) then 1 else 0) <= Unsettled(s)
  {
    assert forall c :: Apply(s, ApplyNotice(p, id)).Closed(c) <==> s.Closed(c);
  }

  lemma SettlingStep(s: System, a: Action)
    requires Inv(s) && Enabled(s, a) && Settling(a)
    ensures Unsettled(Apply(s, a)) + (if Effective(s, a) then 1 else 0) <= Unsettled(s)
  {
    if a.Deliver? {
      DeliverSettles(s, a.p, a.h);
    } else if a.ApplyNotice? {
      NoticeSettles(s, a.p, a.id);
    }
  }

  ghost function EffectiveSteps(s: System, acts: seq<Action>): nat {
    if acts == [] then 0
    else EffectiveSteps(s, acts[..|acts| - 1])
         + (if Effective(Exec(s, acts[..|acts| - 1]), acts[|acts| - 1]) then 1 else 0)
  }

  /** From any reachable state, without new dials and failures, at most `Unsettled` steps deliver a
      handle or disconnect a peer, in any order. */
  lemma {:induction false} SettlesInBoundedSteps(s: System, acts: seq<Action>)
    requires Inv(s) && Run(s, acts)
    requires forall i :: 0 <= i < |acts| ==> Settling(acts[i])
    ensures Inv(Exec(s, acts))
    ensures Unsettled(Exec(s, acts)) + EffectiveSteps(s, acts) <= Unsettled(s)
  {
    if acts != [] {
      var before, a := acts[..|acts| - 1], acts[|acts| - 1];
      SettlesInBoundedSteps(s, before);
      StepKeepsInv(Exec(s, before), a);
      SettlingStep(Exec(s, before), a);
    }
  }

  lemma ExtendRun(s: System, acts: seq<Action>, a: Action)
    requires Run(s, acts) && Enabled(Exec(s, acts), a)
    ensures Run(s, acts + [a]) && Exec(s, acts + [a]) == Apply(Exec(s, acts), a)
  {
    assert (acts + [a])[..|acts|] == acts;
  }

  lemma Extend(s: System, acts: seq<Action>, a: Action)
    requires Run(s, acts) && Enabled(Exec(s, acts), a)
    ensures Run(s, acts + [a]) && Exec(s, acts + [a]) == Apply(Exec(s, acts), a)
    ensures EffectiveSteps(s, acts + [a]) ==
            EffectiveSteps(s, acts) + (if Effective(Exec(s, acts), a) then 1 else 0)
  {
    assert (acts + [a])[..|acts|] == acts;
  }

  /** A state that is not quiescent can settle further by itself. */
  lemma UnsettledCanStep(s: System) returns (acts: seq<Action>)
    requires Inv(s) && !Quiescent(s)
    ensures Run(s, acts) && EffectiveSteps(s, acts) > 0
    ensures forall i :: 0 <= i < |acts| ==> Settling(acts[i])
  {
    var p: Side :| s.At(p).inbox != {} ||
      (s.At(p).link.state.Connected? && s.Closed(s.At(p).link.state.handle.conn));
    if s.At(p).inbox != {} {
      var h :| h in s.At(p).inbox;
      Extend(s, [], Deliver(p, h));
      acts := [] + [Deliver(p, h)];
    } else {
      assert PeerOk(s, p);
      acts := NoticeRun(s, p);
    }
  }

  lemma NoticeHits(s: System, p: Side, id: nat)
    requires InboxOk(s, p) && s.At(p).inbox == {} && s.At(p).link.state.Connected?
    requires s.At(p).link.state.handle.id == id && s.Closed(s.At(p).link.state.handle.conn)
    ensures Enabled(s, SpawnNotice(p, id))
    ensures
      var s' := Apply(s, SpawnNotice(p, id));
      Enabled(s', ApplyNotice(p, id)) && Effective(s', ApplyNotice(p, id))
  {
  }

  lemma NoticeRun(s: System, p: Side) returns (acts: seq<Action>)
    requires InboxOk(s, p) && s.At(p).inbox == {}
    requires s.At(p).link.state.Connected? && s.Closed(s.At(p).link.state.handle.conn)
    ensures Run(s, acts) && EffectiveSteps(s, acts) > 0
    ensures forall i :: 0 <= i < |acts| ==> Settling(acts[i])
  {
    var id := s.At(p).link.state.handle.id;
    NoticeHits(s, p, id);
    var spawn, notice := SpawnNotice(p, id), ApplyNotice(p, id);
    Extend(s, [], spawn);
    Extend(s, [] + [spawn], notice);
    acts := [] + [spawn] + [notice];
  }

  lemma {:induction false} Join(s: System, a: seq<Action>, b: seq<Action>)
    requires Run(s, a) && Run(Exec(s, a), b)
    ensures Run(s, a + b) && Exec(s, a + b) == Exec(Exec(s, a), b)
  {
    if b == [] {
      assert a + b == a;
    } else {
      var shorter, last := b[..|b| - 1], b[|b| - 1];
      Join(s, a, shorter);
      assert Enabled(Exec(Exec(s, a), shorter), last);
      ExtendRun(s, a + shorter, last);
      assert a + b == (a + shorter) + [last];
    }
  }

  /** Every reachable state can come to rest by itself, without another dial. */
  lemma CanSettle(s: System) returns (acts: seq<Action>)
    requires Inv(s)
    ensures Run(s, acts) && Quiescent(Exec(s, acts))
    ensures forall i :: 0 <= i < |acts| ==> Settling(acts[i])
    decreases Unsettled(s)
  {
    if Quiescent(s) {
      acts := [];
    } else {
      var first := UnsettledCanStep(s);
      SettlesInBoundedSteps(s, first);
      var rest := CanSettle(Exec(s, first));
      Join(s, first, rest);
      acts := first + rest;
    }
  }
}

/** Glare: what two peers that dial each other converge to.

    As in the code, the dials of the peer with the smaller endpoint id win. The comment at the head
    of `src/protocols/chat.rs` says the higher id takes the dialing role; the code does not. */
module Glare {
  import opened Connection
  import opened PeerPair

  /** The transport loses nothing and nobody closes the chat. Dials may still fail to connect. */
  ghost predicate FailureFree(acts: seq<Action>) {
    forall i :: 0 <= i < |acts| ==> !acts[i].EndFails? && !acts[i].ConnFails? && !acts[i].Close?
  }

  /** The connections dialed by `d` that peer `p` has processed, in the order it processed them. */
  function DialsOf(s: System, p: Side, d: Side): seq<nat> {
    s.At(p).Log(if p == d then Dial else Accept)
  }

  /** The dials of `d` decide: `d` has the smaller id, or the peer with the smaller id never dialed. */
  ghost predicate Decisive(s: System, d: Side) {
    d.Low? || forall c :: 0 <= c < |s.dialer| ==> s.dialer[c] == High
  }

  ghost predicate Superseded(log: seq<nat>, c: nat) {
    c in log && c != log[|log| - 1]
  }

  /** A peer keeps the last decisive connection it processed until that one is closed. */
  ghost predicate KeepsLast(s: System, p: Side, d: Side) {
    var log := DialsOf(s, p, d);
    log != [] ==> s.At(p).HoldsOn(log[|log| - 1]) || s.Closed(log[|log| - 1])
  }

  /** A decisive connection is closed exactly when one of the peers has gone on to a later one. */
  ghost predicate ClosedIfSuperseded(s: System, d: Side) {
    forall c :: 0 <= c < |s.dialer| && s.dialer[c] == d ==>
      (s.Closed(c) <==> Superseded(DialsOf(s, Low, d), c) || Superseded(DialsOf(s, High, d), c))
  }

  ghost predicate GlareInv(s: System, d: Side) {
    s.failed == {} && KeepsLast(s, Low, d) && KeepsLast(s, High, d) && ClosedIfSuperseded(s, d)
  }

  /** Steps that move neither the logs nor what is held and closed. */
  lemma QuietStep(s: System, s': System, d: Side)
    requires GlareInv(s, d) && s'.dialer == s.dialer && s'.failed == s.failed
    requires forall p: Side :: s'.At(p).dialLog == s.At(p).dialLog && s'.At(p).acceptLog == s.At(p).acceptLog
    requires forall c :: s'.Closed(c) <==> s.Closed(c)
    requires forall p: Side, c :: s.At(p).HoldsOn(c) ==> s'.At(p).HoldsOn(c) || s.Closed(c)
    ensures GlareInv(s', d)
  {
    assert forall p: Side :: DialsOf(s', p, d) == DialsOf(s, p, d);
    assert s'.At(Low).dialLog == s.At(Low).dialLog && s'.At(High).dialLog == s.At(High).dialLog;
  }

  lemma ConnectsStep(s: System, p: Side, t: nat, d: Side)
    requires Inv(s) && GlareInv(s, d)
    ensures GlareInv(Connects(s, p, t), d)
  {
    var s' := Connects(s, p, t);
    assert Conserved(s, Low) && Conserved(s, High);
    assert forall c :: s'.Closed(c) <==> s.Closed(c);
    assert !s.low.Received(|s.dialer|) && !s.high.Received(|s.dialer|);
    assert !s.Closed(|s.dialer|);
  }

  /** The decisive log of the peer grows exactly when the delivered handle is a decisive one. */
  lemma DeliveredLogs(s: System, p: Side, h: Handle, d: Side)
    requires Inv(s) && h in s.At(p).inbox
    ensures
      var s' := Delivered(s, p, h);
      && DialsOf(s', p.Other(), d) == DialsOf(s, p.Other(), d)
      && DialsOf(s', p, d) == DialsOf(s, p, d) + (if s.dialer[h.conn] == d then [h.conn] else [])
      && h.conn !in DialsOf(s, p, d)
  {
    assert InboxOk(s, p) && OwnEnd(s, p, h);
  }

  /** A decisive handle is always taken; another one never displaces a decisive connection. */
  lemma DecisiveTaken(s: System, p: Side, h: Handle, d: Side)
    requires Inv(s) && h in s.At(p).inbox && Decisive(s, d)
    ensures
      var l, l' := s.At(p).link, Delivered(s, p, h).At(p).link;
      && (s.dialer[h.conn] == d ==>
            l'.state == Connected(h) && l'.cancelled == l.cancelled + l.Current())
      && (s.dialer[h.conn] != d && l.state.Connected? && s.dialer[l.state.handle.conn] == d ==>
            l'.Current() == l.Current() && l'.cancelled == l.cancelled + {h.conn})
      && (s.dialer[h.conn] != d && !(l.state.Connected? && s.dialer[l.state.handle.conn] == d) ==>
            forall c :: c in l'.cancelled && c !in l.cancelled ==> c < |s.dialer| && s.dialer[c] != d)
  {
    assert InboxOk(s, p) && OwnEnd(s, p, h);
    if s.At(p).link.state.Connected? {
      assert OwnEnd(s, p, s.At(p).link.state.handle);
    }
  }

  /** Delivering closes, of the decisive connections, at most the one the peer goes on from. */
  lemma DeliverCloses(s: System, p: Side, h: Handle, d: Side, c: nat)
    requires Inv(s) && KeepsLast(s, p, d) && Decisive(s, d) && h in s.At(p).inbox
    requires s.failed == {} && c < |s.dialer| && s.dialer[c] == d
    requires s.At(p).HoldsOn(c) && !s.Closed(c) ==> !Superseded(DialsOf(s, p, d), c)
    ensures
      var log := DialsOf(s, p, d);
      Delivered(s, p, h).Closed(c) <==>
        s.Closed(c) || (s.dialer[h.conn] == d && log != [] && c == log[|log| - 1])
  {
    DecisiveTaken(s, p, h, d);
    assert Conserved(s, p);
    if s.At(p).HoldsOn(c) {
      assert s.At(p).Received(c);
      assert c in DialsOf(s, p, d);
    }
  }

  lemma DeliverClosedIff(s: System, p: Side, h: Handle, d: Side, c: nat)
    requires Inv(s) && GlareInv(s, d) && Decisive(s, d) && h in s.At(p).inbox
    requires c < |s.dialer| && s.dialer[c] == d
    ensures
      var s' := Delivered(s, p, h);
      && (s'.Closed(c) <==> Superseded(DialsOf(s', Low, d), c) || Superseded(DialsOf(s', High, d), c))
      && (s.Closed(c) ==> s'.Closed(c))
  {
    DeliveredLogs(s, p, h, d);
    DeliverCloses(s, p, h, d, c);
  }

  lemma DeliverStep(s: System, p: Side, h: Handle, d: Side)
    requires Inv(s) && GlareInv(s, d) && Decisive(s, d) && h in s.At(p).inbox
    ensures GlareInv(Delivered(s, p, h), d)
  {
    var s' := Delivered(s, p, h);
    forall c | 0 <= c < |s.dialer| && s.dialer[c] == d
      ensures s'.Closed(c) <==> Superseded(DialsOf(s', Low, d), c) || Superseded(DialsOf(s', High, d), c)
    {
      DeliverClosedIff(s, p, h, d, c);
    }
    DeliverKeepsLast(s, p, h, d);
    OtherKeepsLast(s, p, h, d);
  }

  lemma OtherKeepsLast(s: System, p: Side, h: Handle, d: Side)
    requires KeepsLast(s, p.Other(), d)
    ensures KeepsLast(Delivered(s, p, h), p.Other(), d)
  {
  }

  lemma DeliverKeepsLast(s: System, p: Side, h: Handle, d: Side)
    requires Inv(s) && KeepsLast(s, p, d) && Decisive(s, d) && h in s.At(p).inbox
    ensures KeepsLast(Delivered(s, p, h), p, d)
  {
    DeliveredLogs(s, p, h, d);
    DecisiveTaken(s, p, h, d);
    assert Conserved(s, p);
    var log := DialsOf(s, p, d);
    if log != [] {
      assert log[|log| - 1] in log;
    }
  }

  lemma QuietAction(s: System, a: Action, d: Side)
    requires GlareInv(s, d)
    requires a.StartReconnect? || a.DialFails? || a.SpawnNotice? || a.Observe?
    ensures GlareInv(Apply(s, a), d)
  {
    QuietPeer(s, Apply(s, a), a.p, d);
  }

  lemma QuietPeer(s: System, s': System, p: Side, d: Side)
    requires GlareInv(s, d) && s'.dialer == s.dialer && s'.failed == s.failed
    requires s'.At(p.Other()) == s.At(p.Other())
    requires s'.At(p).dialLog == s.At(p).dialLog && s'.At(p).acceptLog == s.At(p).acceptLog
    requires s'.At(p).link.cancelled == s.At(p).link.cancelled
    requires s.At(p).link.state.Connected? ==> s'.At(p).link.state == s.At(p).link.state
    ensures GlareInv(s', d)
  {
    QuietStep(s, s', d);
  }

  lemma NoticeStep(s: System, p: Side, id: nat, d: Side)
    requires GlareInv(s, d) && NoticesOk(s, p) && id in s.At(p).notices
    ensures GlareInv(Apply(s, ApplyNotice(p, id)), d)
  {
    QuietStep(s, Apply(s, ApplyNotice(p, id)), d);
  }

  lemma GlareStep(s: System, a: Action, d: Side)
    requires Inv(s) && GlareInv(s, d) && Enabled(s, a) && Decisive(s, d)
    requires !a.EndFails? && !a.ConnFails? && !a.Close?
    ensures GlareInv(Apply(s, a), d)
  {
    match a
    case DialConnects(p, t) => ConnectsStep(s, p, t, d);
    case Deliver(p, h) => DeliverStep(s, p, h, d);
    case ApplyNotice(p, id) =>
      assert PeerOk(s, p);
      NoticeStep(s, p, id, d);
    case _ => QuietAction(s, a, d);
  }

  lemma {:induction false} RunKeepsGlareInv(acts: seq<Action>, d: Side)
    requires Run(Init(), acts) && FailureFree(acts) && Decisive(Exec(Init(), acts), d)
    ensures Inv(Exec(Init(), acts)) && GlareInv(Exec(Init(), acts), d)
  {
    RunKeepsInv(acts);
    if acts != [] {
      var before, a := acts[..|acts| - 1], acts[|acts| - 1];
      DecisiveBefore(Exec(Init(), before), a, d);
      RunKeepsGlareInv(before, d);
      GlareStep(Exec(Init(), before), a, d);
    }
  }

  lemma DecisiveBefore(s: System, a: Action, d: Side)
    requires Decisive(Apply(s, a), d)
    ensures Decisive(s, d)
  {
    assert forall c :: 0 <= c < |s.dialer| ==> Apply(s, a).dialer[c] == s.dialer[c];
  }

  /** What a decisive peer `d` brings both peers to. */
  ghost predicate Converged(s: System, d: Side) {
    var low, high := DialsOf(s, Low, d), DialsOf(s, High, d);
    && low != [] && high != []
    && (low[|low| - 1] == high[|high| - 1] ==>
          s.low.HoldsOn(low[|low| - 1]) && s.high.HoldsOn(low[|low| - 1]))
    && (low[|low| - 1] != high[|high| - 1] ==> NoneHeld(s, Low, d) && NoneHeld(s, High, d))
  }

  /** Peer `p` is not connected by a dial of `d`. */
  ghost predicate NoneHeld(s: System, p: Side, d: Side) {
    s.At(p).link.state.Connected? ==>
      s.At(p).link.state.handle.conn < |s.dialer| && s.dialer[s.At(p).link.state.handle.conn] != d
  }

  lemma AllProcessed(s: System, d: Side, c: nat, p: Side)
    requires Inv(s) && s.failed == {} && Quiescent(s) && c < |s.dialer| && s.dialer[c] == d
    ensures c in DialsOf(s, p, d)
  {
    assert Accounted(s, p) && Conserved(s, p);
    assert s.At(p).Received(c);
  }

  lemma NeitherHolds(s: System, d: Side, p: Side)
    requires Inv(s) && GlareInv(s, d) && Quiescent(s)
    requires
      var low, high := DialsOf(s, Low, d), DialsOf(s, High, d);
      low != [] && high != [] && low[|low| - 1] != high[|high| - 1]
    ensures NoneHeld(s, p, d)
  {
    if s.At(p).link.state.Connected? {
      var c := s.At(p).link.state.handle.conn;
      assert InboxOk(s, p) && OwnEnd(s, p, s.At(p).link.state.handle);
      assert !s.Closed(c);
      if s.dialer[c] == d {
        AllProcessed(s, d, c, Low);
        AllProcessed(s, d, c, High);
      }
    }
  }

  lemma BothHold(s: System, d: Side, c: nat)
    requires Inv(s) && GlareInv(s, d)
    requires
      var low, high := DialsOf(s, Low, d), DialsOf(s, High, d);
      low != [] && high != [] && low[|low| - 1] == c == high[|high| - 1]
    ensures s.low.HoldsOn(c) && s.high.HoldsOn(c)
  {
    var low := DialsOf(s, Low, d);
    assert c in low;
    assert Conserved(s, Low);
    assert c < |s.dialer| && s.dialer[c] == d;
    assert !Superseded(DialsOf(s, Low, d), c) && !Superseded(DialsOf(s, High, d), c);
    assert !s.Closed(c);
    assert KeepsLast(s, Low, d) && KeepsLast(s, High, d);
  }

  lemma RestConverged(s: System, d: Side)
    requires Inv(s) && GlareInv(s, d) && Quiescent(s) && d in s.dialer
    ensures Converged(s, d)
  {
    var k :| 0 <= k < |s.dialer| && s.dialer[k] == d;
    AllProcessed(s, d, k, Low);
    AllProcessed(s, d, k, High);
    var low, high := DialsOf(s, Low, d), DialsOf(s, High, d);
    if low[|low| - 1] == high[|high| - 1] {
      BothHold(s, d, low[|low| - 1]);
    } else {
      NeitherHolds(s, d, Low);
      NeitherHolds(s, d, High);
    }
  }

  /** Glare convergence. Take any run without transport failures, whatever the order of dials,
      deliveries and close notices, that has come to rest after the decisive peer connected at least
      once. If both peers processed the same decisive connection last, both end on exactly that
      one. If not, neither ends on any decisive connection. */
  lemma GlareConverges(acts: seq<Action>, d: Side)
    requires Run(Init(), acts) && FailureFree(acts) && Quiescent(Exec(Init(), acts))
    requires Decisive(Exec(Init(), acts), d) && d in Exec(Init(), acts).dialer
    ensures Converged(Exec(Init(), acts), d)
  {
    RunKeepsGlareInv(acts, d);
    RestConverged(Exec(Init(), acts), d);
  }

  lemma {:induction false} SettlingDialsNothing(s: System, acts: seq<Action>)
    requires Run(s, acts) && forall i :: 0 <= i < |acts| ==> Settling(acts[i])
    ensures Exec(s, acts).dialer == s.dialer
  {
    if acts != [] {
      SettlingDialsNothing(s, acts[..|acts| - 1]);
    }
  }

  /** However a run without transport failures goes on by itself until it rests, it converges. */
  lemma SettlesConverged(acts: seq<Action>, more: seq<Action>, d: Side)
    requires Run(Init(), acts) && FailureFree(acts)
    requires Decisive(Exec(Init(), acts), d) && d in Exec(Init(), acts).dialer
    requires Run(Exec(Init(), acts), more) && forall i :: 0 <= i < |more| ==> Settling(more[i])
    requires Quiescent(Exec(Exec(Init(), acts), more))
    ensures Run(Init(), acts + more) && Converged(Exec(Init(), acts + more), d)
  {
    Join(Init(), acts, more);
    SettlingDialsNothing(Exec(Init(), acts), more);
    assert forall i :: 0 <= i < |acts + more| ==> (acts + more)[i] in acts || Settling((acts + more)[i]);
    GlareConverges(acts + more, d);
  }

  /** Every run without transport failures in which the decisive peer has connected can go on by itself
      to a converged state, without another dial. */
  lemma CanConverge(acts: seq<Action>, d: Side) returns (more: seq<Action>)
    requires Run(Init(), acts) && FailureFree(acts)
    requires Decisive(Exec(Init(), acts), d) && d in Exec(Init(), acts).dialer
    ensures forall i :: 0 <= i < |more| ==> Settling(more[i])
    ensures Run(Init(), acts + more) && Converged(Exec(Init(), acts + more), d)
  {
    RunKeepsInv(acts);
    more := CanSettle(Exec(Init(), acts));
    SettlesConverged(acts, more, d);
  }

  /** The case the tie-break is made for: both peers process the decisive dials in one order. */
  lemma SameOrderConverges(acts: seq<Action>, d: Side, log: seq<nat>)
    requires Run(Init(), acts) && FailureFree(acts) && Quiescent(Exec(Init(), acts))
    requires Decisive(Exec(Init(), acts), d) && d in Exec(Init(), acts).dialer
    requires log == DialsOf(Exec(Init(), acts), Low, d) == DialsOf(Exec(Init(), acts), High, d)
    ensures log != []
    ensures Exec(Init(), acts).low.HoldsOn(log[|log| - 1])
    ensures Exec(Init(), acts).high.HoldsOn(log[|log| - 1])
  {
    GlareConverges(acts, d);
  }
}

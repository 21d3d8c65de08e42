/** The manager of one chat: how it answers synchronisation messages, and when it resynchronises. */
module Manager {
  import opened Options
  import opened Connection
  import PeerPair

  /** A received `Sync(None)`, a payload that does not decode, or one that does. */
  datatype Incoming = Nothing | Garbage | Changes

  /** What the document makes of a message it is given: `more` says whether it then has something to
      send. A rejected message is followed by a reset from the tables, which may itself fail. */
  datatype Outcome = Accepted(more: bool) | Rejected(more: bool) | ResetFailed

  /** A `Sync` message to send: with changes, or empty. */
  datatype Reply = SendChanges | SendNothing

  /** `receive_sync_message`: an empty message that finds nothing to send is not answered. */
  function Answer(incoming: Incoming, more: bool): Option<Reply> {
    if incoming.Nothing? && !more then None else Some(if more then SendChanges else SendNothing)
  }

  /** The answer to a message, and whether a reset is now outstanding. */
  datatype Handling = Handling(reply: Option<Reply>, reset: bool)

  /** `handle_incomming_message`. */
  function React(incoming: Incoming, outcome: Outcome, reset: bool): Handling {
    if incoming.Garbage? then Handling(None, reset)
    else
      match outcome
      case Accepted(more) => Handling(Answer(incoming, more), false)
      case Rejected(more) =>
        if reset then Handling(None, true)
        else Handling(Some(if more then SendChanges else SendNothing), true)
      case ResetFailed => Handling(None, reset)
  }

  /** Only a message with changes can be rejected. */
  predicate Possible(incoming: Incoming, outcome: Outcome) {
    outcome.Accepted? || incoming.Changes?
  }

  class Actor {
    const conn: ChatConnection
    var resetDocState: bool
    var seen: Option<nat>
    var resetFor: Option<nat>

    constructor (conn: ChatConnection)
      ensures this.conn == conn && !resetDocState && seen == None && resetFor == None
    {
      this.conn := conn;
      resetDocState, seen, resetFor := false, None, None;
    }

    /** `handle_connection_state_change` on the value borrowed from the watch channel. */
    method ObserveConnectionState()
      modifies this
      ensures seen == Some(conn.version) && resetDocState == old(resetDocState)
      ensures resetFor == PeerPair.ResetFor(conn.View(), old(resetFor))
      ensures resetFor == if conn.published.PublicConnected? then Some(conn.published.id) else old(resetFor)
    {
      seen := Some(conn.version);
      if conn.published.PublicConnected? {
        resetFor := Some(conn.published.id);
      }
    }

    method HandleIncoming(incoming: Incoming, outcome: Outcome) returns (reply: Option<Reply>)
      requires Possible(incoming, outcome)
      modifies this`resetDocState
      ensures Handling(reply, resetDocState) == React(incoming, outcome, old(resetDocState))
      ensures incoming.Garbage? || outcome.ResetFailed? ==> reply == None && resetDocState == old(resetDocState)
      ensures !incoming.Garbage? && outcome.Accepted? ==>
        && !resetDocState
        && (reply == None <==> incoming.Nothing? && !outcome.more)
        && (reply.Some? ==> (reply.value == SendChanges <==> outcome.more))
      ensures !incoming.Garbage? && outcome.Rejected? ==>
        && resetDocState
        && (reply == None <==> old(resetDocState))
        && (reply.Some? ==> (reply.value == SendChanges <==> outcome.more))
    {
      reply := None;
      if incoming.Garbage? {
        return;
      }
      match outcome
      case Accepted(more) =>
        resetDocState := false;
        if !(incoming.Nothing? && !more) {
          reply := Some(if more then SendChanges else SendNothing);
        }
      case Rejected(more) =>
        if !resetDocState {
          resetDocState := true;
          reply := Some(if more then SendChanges else SendNothing);
        }
      case ResetFailed =>
    }
  }

  // ----- the exchange between two managers

  /** Messages on their way to each side, oldest first, and the reset flags. */
  datatype Exchange = Exchange(toLow: seq<Incoming>, toHigh: seq<Incoming>, lowReset: bool, highReset: bool)

  /** One side receives the next message on its way. */
  datatype Receive = Receive(low: bool, outcome: Outcome)

  ghost predicate Enabled(e: Exchange, r: Receive) {
    var queue := if r.low then e.toLow else e.toHigh;
    queue != [] && Possible(queue[0], r.outcome)
  }

  function OnWire(reply: Option<Reply>): seq<Incoming> {
    match reply
    case None => []
    case Some(SendChanges) => [Changes]
    case Some(SendNothing) => [Nothing]
  }

  ghost function Reaction(e: Exchange, r: Receive): Handling
    requires Enabled(e, r)
  {
    if r.low then React(e.toLow[0], r.outcome, e.lowReset) else React(e.toHigh[0], r.outcome, e.highReset)
  }

  ghost function Received(e: Exchange, r: Receive): Exchange
    requires Enabled(e, r)
  {
    var h := Reaction(e, r);
    if r.low then Exchange(e.toLow[1..], e.toHigh + OnWire(h.reply), h.reset, e.highReset)
    else Exchange(e.toLow + OnWire(h.reply), e.toHigh[1..], e.lowReset, h.reset)
  }

  ghost predicate Run(steps: seq<Receive>, trace: seq<Exchange>) {
    && |trace| == |steps| + 1
    && forall i :: 0 <= i < |steps| ==> Enabled(trace[i], steps[i]) && trace[i + 1] == Received(trace[i], steps[i])
  }

  /** Messages that carry a payload. */
  ghost function Payloads(queue: seq<Incoming>): nat {
    if queue == [] then 0 else (if queue[0].Nothing? then 0 else 1) + Payloads(queue[1..])
  }

  lemma {:induction false} PayloadsConcat(a: seq<Incoming>, b: seq<Incoming>)
    ensures Payloads(a + b) == Payloads(a) + Payloads(b) && Payloads(a) <= |a|
  {
    if a == [] {
      assert a + b == b;
    } else {
      PayloadsConcat(a[1..], b);
      assert (a + b)[1..] == a[1..] + b;
    }
  }

  ghost function PayloadsIn(e: Exchange): nat {
    Payloads(e.toLow) + Payloads(e.toHigh)
  }

  ghost function EmptiesIn(e: Exchange): int {
    |e.toLow| + |e.toHigh| - PayloadsIn(e)
  }

  lemma EmptiesCount(e: Exchange)
    ensures EmptiesIn(e) >= 0
  {
    PayloadsConcat(e.toLow, []);
    PayloadsConcat(e.toHigh, []);
  }

  /** How many of the first `n` steps answered with changes. */
  ghost function Generated(steps: seq<Receive>, trace: seq<Exchange>, n: nat): nat
    requires Run(steps, trace) && n <= |steps|
  {
    if n == 0 then 0
    else Generated(steps, trace, n - 1)
         + (if Reaction(trace[n - 1], steps[n - 1]).reply == Some(SendChanges) then 1 else 0)
  }

  ghost function Consumed(e: Exchange, r: Receive): Incoming
    requires Enabled(e, r)
  {
    if r.low then e.toLow[0] else e.toHigh[0]
  }

  ghost function One(b: bool): nat {
    if b then 1 else 0
  }

  /** What one step does to the messages in flight, exactly: it takes one, and adds one with a payload
      if it answers with changes, an empty one if it answers that there are none. */
  lemma StepBalance(e: Exchange, r: Receive)
    requires Enabled(e, r)
    ensures
      var e', reply := Received(e, r), Reaction(e, r).reply;
      && PayloadsIn(e') == PayloadsIn(e) - One(!Consumed(e, r).Nothing?) + One(reply == Some(SendChanges))
      && EmptiesIn(e') == EmptiesIn(e) - One(Consumed(e, r).Nothing?) + One(reply == Some(SendNothing))
  {
    var out := OnWire(Reaction(e, r).reply);
    PayloadsConcat(e.toLow, out);
    PayloadsConcat(e.toHigh, out);
    assert out != [] ==> Payloads(out) == Payloads([out[0]]);
  }

  /** What one step does to the budget: an empty message is sent only for one with a payload. */
  lemma StepCosts(e: Exchange, r: Receive)
    requires Enabled(e, r)
    ensures
      var e' := Received(e, r);
      var gain := if Reaction(e, r).reply == Some(SendChanges) then 1 else 0;
      2 * PayloadsIn(e') + EmptiesIn(e') + 1 <= 2 * PayloadsIn(e) + EmptiesIn(e) + 2 * gain
  {
    StepBalance(e, r);
  }

  /** The exchange drains: of the messages received, each is answered at most once, and receiving
      alone goes on for at most two steps per payload in flight or generated, and one per empty
      message in flight at the start. */
  lemma {:induction false} ExchangeDrains(steps: seq<Receive>, trace: seq<Exchange>, n: nat)
    requires Run(steps, trace) && n <= |steps|
    ensures n + 2 * PayloadsIn(trace[n]) + EmptiesIn(trace[n])
         <= 2 * (PayloadsIn(trace[0]) + Generated(steps, trace, n)) + EmptiesIn(trace[0])
    ensures n <= 2 * (PayloadsIn(trace[0]) + Generated(steps, trace, n)) + EmptiesIn(trace[0])
  {
    EmptiesCount(trace[n]);
    if n > 0 {
      ExchangeDrains(steps, trace, n - 1);
      assert trace[n] == Received(trace[n - 1], steps[n - 1]);
      StepCosts(trace[n - 1], steps[n - 1]);
    }
  }

  /** How many of the first `n` steps took an empty message that found nothing to send either. */
  ghost function Ends(steps: seq<Receive>, trace: seq<Exchange>, n: nat): nat
    requires Run(steps, trace) && n <= |steps|
  {
    if n == 0 then 0
    else Ends(steps, trace, n - 1)
         + (if Consumed(trace[n - 1], steps[n - 1]).Nothing? && !steps[n - 1].outcome.more then 1 else 0)
  }

  ghost function InFlight(e: Exchange): nat {
    |e.toLow| + |e.toHigh|
  }

  /** Every message of the run decodes and is accepted. */
  ghost predicate AllAccepted(steps: seq<Receive>, trace: seq<Exchange>)
    requires Run(steps, trace)
  {
    forall i :: 0 <= i < |steps| ==> steps[i].outcome.Accepted? && !Consumed(trace[i], steps[i]).Garbage?
  }

  /** Conservation: as long as all messages are accepted, the number in flight falls only where an
      empty message finds nothing to send. So the exchange is at rest exactly when this has happened
      as often as there were messages at the start. */
  lemma {:induction false} RestsAtEmptyMessages(steps: seq<Receive>, trace: seq<Exchange>, n: nat)
    requires Run(steps, trace) && AllAccepted(steps, trace) && n <= |steps|
    ensures InFlight(trace[n]) + Ends(steps, trace, n) == InFlight(trace[0])
    ensures trace[n].toLow == trace[n].toHigh == [] <==> Ends(steps, trace, n) == InFlight(trace[0])
  {
    if n > 0 {
      RestsAtEmptyMessages(steps, trace, n - 1);
      assert trace[n] == Received(trace[n - 1], steps[n - 1]);
    }
  }

  /** How many of the first `n` steps found something to send. */
  ghost function HadMore(steps: seq<Receive>, n: nat): nat
    requires n <= |steps|
  {
    if n == 0 then 0
    else HadMore(steps, n - 1) + One(!steps[n - 1].outcome.ResetFailed? && steps[n - 1].outcome.more)
  }

  /** Nothing is held back: as long as all messages are accepted, changes are sent exactly as often as
      there are changes to send. */
  lemma {:induction false} ChangesAreSent(steps: seq<Receive>, trace: seq<Exchange>, n: nat)
    requires Run(steps, trace) && AllAccepted(steps, trace) && n <= |steps|
    ensures Generated(steps, trace, n) == HadMore(steps, n)
  {
    if n > 0 {
      ChangesAreSent(steps, trace, n - 1);
    }
  }

  /** The messages on their way to one side. */
  ghost function Queue(e: Exchange, low: bool): seq<Incoming> {
    if low then e.toLow else e.toHigh
  }

  /** How many messages one side received, and how many it answered, in `n` steps. */
  ghost function Receipts(steps: seq<Receive>, low: bool, n: nat): nat
    requires n <= |steps|
  {
    if n == 0 then 0 else Receipts(steps, low, n - 1) + One(steps[n - 1].low == low)
  }

  ghost function Replies(steps: seq<Receive>, trace: seq<Exchange>, low: bool, n: nat): nat
    requires Run(steps, trace) && n <= |steps|
  {
    if n == 0 then 0
    else Replies(steps, trace, low, n - 1)
         + One(steps[n - 1].low == low && Reaction(trace[n - 1], steps[n - 1]).reply.Some?)
  }

  lemma AnswerGoesAcross(e: Exchange, r: Receive, low: bool)
    requires Enabled(e, r)
    ensures |Queue(Received(e, r), low)| + One(r.low == low)
         == |Queue(e, low)| + One(r.low == !low && Reaction(e, r).reply.Some?)
  {
  }

  /** Answers go to the other side: what is on its way to a side is what was on its way at the start,
      less what it received, and what the other side answered. */
  lemma {:induction false} AnswersGoAcross(steps: seq<Receive>, trace: seq<Exchange>, low: bool, n: nat)
    requires Run(steps, trace) && n <= |steps|
    ensures |Queue(trace[n], low)| + Receipts(steps, low, n)
         == |Queue(trace[0], low)| + Replies(steps, trace, !low, n)
  {
    if n > 0 {
      AnswersGoAcross(steps, trace, low, n - 1);
      assert trace[n] == Received(trace[n - 1], steps[n - 1]);
      AnswerGoesAcross(trace[n - 1], steps[n - 1], low);
    }
  }

  /** How often one side reset its document, and how often it accepted a message, in `n` steps. */
  ghost function Resets(steps: seq<Receive>, trace: seq<Exchange>, low: bool, n: nat): nat
    requires Run(steps, trace) && n <= |steps|
  {
    if n == 0 then 0
    else Resets(steps, trace, low, n - 1)
         + (if steps[n - 1].low == low && steps[n - 1].outcome.Rejected?
               && Reaction(trace[n - 1], steps[n - 1]).reply.Some? then 1 else 0)
  }

  ghost function Accepts(steps: seq<Receive>, trace: seq<Exchange>, low: bool, n: nat): nat
    requires Run(steps, trace) && n <= |steps|
  {
    if n == 0 then 0
    else Accepts(steps, trace, low, n - 1)
         + (if steps[n - 1].low == low && steps[n - 1].outcome.Accepted?
               && !Consumed(trace[n - 1], steps[n - 1]).Garbage? then 1 else 0)
  }

  ghost function Flag(e: Exchange, low: bool): nat {
    if (if low then e.lowReset else e.highReset) then 1 else 0
  }

  /** How often one side accepted a message while a reset was outstanding, in `n` steps. */
  ghost function Clears(steps: seq<Receive>, trace: seq<Exchange>, low: bool, n: nat): nat
    requires Run(steps, trace) && n <= |steps|
  {
    if n == 0 then 0
    else Clears(steps, trace, low, n - 1)
         + One(steps[n - 1].low == low && steps[n - 1].outcome.Accepted?
               && !Consumed(trace[n - 1], steps[n - 1]).Garbage? && Flag(trace[n - 1], low) == 1)
  }

  /** Resets and acceptances alternate, exactly: each reset leaves the flag set until a message is
      accepted, and each accepted message clears it. */
  lemma {:induction false} ResetsAlternate(steps: seq<Receive>, trace: seq<Exchange>, low: bool, n: nat)
    requires Run(steps, trace) && n <= |steps|
    ensures Resets(steps, trace, low, n) + Flag(trace[0], low) == Clears(steps, trace, low, n) + Flag(trace[n], low)
    ensures n > 0 && steps[n - 1].low == low && !Consumed(trace[n - 1], steps[n - 1]).Garbage? ==>
      && (steps[n - 1].outcome.Accepted? ==> Flag(trace[n], low) == 0)
      && (steps[n - 1].outcome.Rejected? ==> Flag(trace[n], low) == 1)
  {
    if n > 0 {
      ResetsAlternate(steps, trace, low, n - 1);
      assert trace[n] == Received(trace[n - 1], steps[n - 1]);
    }
  }

  /** The reset is one-shot: after one, a side does not reset again before it has accepted a message,
      however many messages are rejected. */
  lemma {:induction false} ResetIsOneShot(steps: seq<Receive>, trace: seq<Exchange>, low: bool, n: nat)
    requires Run(steps, trace) && n <= |steps|
    ensures Resets(steps, trace, low, n) + Flag(trace[0], low)
         <= Accepts(steps, trace, low, n) + Flag(trace[n], low)
    ensures Resets(steps, trace, low, n) <= Accepts(steps, trace, low, n) + 1
  {
    if n > 0 {
      ResetIsOneShot(steps, trace, low, n - 1);
      assert trace[n] == Received(trace[n - 1], steps[n - 1]);
    }
  }
}

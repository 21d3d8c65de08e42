/** Peers that append to one chat, exchange changes, fail and restart.

    A synchronisation message is modelled by the changes it carries; what a peer receives is any part
    of what another peer has put into its messages so far, in any order and any number of times. */
module Replication {
  import opened Options
  import opened ChangeGraph
  import opened Store
  import opened Repository

  /** `sent`: every change this peer ever put into a message. `said`: every change it ever committed
      for a message of its own, in order. */
  datatype Replica = Replica(repo: Repo, sent: Changes, said: seq<Change>)

  datatype Net = Net(peers: map<nat, Replica>)

  function SetupOf(p: nat): Change {
    Change(p, Setup, {})
  }

  function NewReplica(p: nat): Replica {
    Replica(Load(Tables(None, [], 0), SetupOf(p)), {}, [])
  }

  /** A peer works on its repository: it adds a message (`add_message`), takes in changes another
      peer sent (`receive_sync_message`), or restarts (a crash and reload, or a reset). Or it puts
      changes into a message (`generate_sync_message`). */
  datatype Action =
    | Do(p: nat, step: Step)
    | Send(p: nat, cs: Changes)

  ghost predicate Heard(s: Net, p: nat, cs: Changes) {
    exists q :: q in s.peers && q != p && cs <= s.peers[q].sent
  }

  ghost predicate Enabled(s: Net, a: Action) {
    && a.p in s.peers
    && (a.Do? && a.step.ReceiveSync? ==> Heard(s, a.p, a.step.cs))
    && (a.Send? ==> a.cs <= s.peers[a.p].repo.doc)
  }

  function After(x: Replica, a: Action): Replica {
    match a
    case Do(p, step) =>
      Replica(Perform(x.repo, p, SetupOf(p), step), x.sent,
              if step.AddMessage? then x.said + [NewMessage(x.repo.doc, p, step.msg)] else x.said)
    case Send(p, cs) => x.(sent := x.sent + cs)
  }

  function Apply(s: Net, a: Action): Net
    requires a.p in s.peers
  {
    Net(s.peers[a.p := After(s.peers[a.p], a)])
  }

  ghost predicate Initial(s: Net) {
    forall p :: p in s.peers ==> s.peers[p] == NewReplica(p)
  }

  ghost predicate Run(acts: seq<Action>, trace: seq<Net>) {
    && |trace| == |acts| + 1 && Initial(trace[0])
    && forall i :: 0 <= i < |acts| ==> Enabled(trace[i], acts[i]) && trace[i + 1] == Apply(trace[i], acts[i])
  }

  /** Every INSERT succeeds. */
  ghost predicate Saving(acts: seq<Action>) {
    forall i :: 0 <= i < |acts| && acts[i].Do? ==> Saves(acts[i].step)
  }

  /** Messages carry only changes `save_after` no longer lists. */
  ghost predicate CarefulStep(s: Net, a: Action) {
    a.Send? && a.p in s.peers ==> a.cs !! SaveAfter(s.peers[a.p].repo.doc, s.peers[a.p].repo.saved)
  }

  ghost predicate Careful(acts: seq<Action>, trace: seq<Net>)
    requires |trace| == |acts| + 1
  {
    forall i :: 0 <= i < |acts| ==> CarefulStep(trace[i], acts[i])
  }

  // ----- the durable part of every peer

  ghost predicate AllExact(s: Net) {
    forall p :: p in s.peers ==> Exact(s.peers[p].repo)
  }

  lemma ExactAfter(x: Replica, a: Action)
    requires Exact(x.repo)
    ensures Exact(After(x, a).repo) && Content(x.repo.tables) <= Content(After(x, a).repo.tables)
    ensures a.Do? && Saves(a.step) ==> Content(After(x, a).repo.tables) == After(x, a).repo.doc
  {
    if a.Do? {
      StepIsExact(x.repo, a.p, SetupOf(a.p), a.step);
    }
  }

  lemma InitialExact(s: Net)
    requires Initial(s)
    ensures AllExact(s)
    ensures forall p :: p in s.peers ==> s.peers[p].repo.doc == {SetupOf(p)}
  {
    forall p | p in s.peers
      ensures Exact(s.peers[p].repo) && s.peers[p].repo.doc == {SetupOf(p)}
    {
      LoadCreates(Tables(None, [], 0), SetupOf(p));
    }
  }

  lemma {:induction false} RunIsExact(acts: seq<Action>, trace: seq<Net>, n: nat)
    requires Run(acts, trace) && n < |trace|
    ensures AllExact(trace[n])
  {
    if n == 0 {
      InitialExact(trace[0]);
    } else {
      RunIsExact(acts, trace, n - 1);
      ExactAfter(trace[n - 1].peers[acts[n - 1].p], acts[n - 1]);
    }
  }

  // ----- the messages a peer was given

  /** The messages `p` was given to add, in order. */
  function Added(acts: seq<Action>, p: nat): seq<nat> {
    if acts == [] then []
    else
      var a := acts[|acts| - 1];
      Added(acts[..|acts| - 1], p) + if a.p == p && a.Do? && a.step.AddMessage? then [a.step.msg] else []
  }

  /** The messages that some changes carry. */
  function Texts(cs: seq<Change>): seq<nat> {
    seq(|cs|, i requires 0 <= i < |cs| => if cs[i].op.Append? then cs[i].op.msg else 0)
  }

  /** In every run, what a peer committed for messages of its own carries exactly the messages it was
      given, in order. */
  lemma {:induction false} SaidIsAdded(acts: seq<Action>, trace: seq<Net>, n: nat, p: nat)
    requires Run(acts, trace) && n <= |acts| && p in trace[n].peers
    ensures Texts(trace[n].peers[p].said) == Added(acts[..n], p)
  {
    if n > 0 {
      SaidIsAdded(acts, trace, n - 1, p);
      assert acts[..n][..n - 1] == acts[..n - 1];
      SaidMore(trace[n - 1].peers[p], acts[n - 1]);
    }
  }

  lemma SaidMore(x: Replica, a: Action)
    ensures Texts(After(x, a).said)
         == Texts(x.said) + if a.Do? && a.step.AddMessage? then [a.step.msg] else []
  {
  }

  // ----- what a step does, without the tables in detail

  /** The document holds the history of its members and all that the tables hold. */
  ghost predicate KeepsUp(r: Repo) {
    Closed(r.doc) && Content(r.tables) <= r.doc
  }

  /** What a step does to a peer: its document, and tables that lose nothing. */
  ghost predicate Moves(x: Replica, a: Action) {
    var r, r' := x.repo, After(x, a).repo;
    && KeepsUp(r') && Content(r.tables) <= Content(r'.tables)
    && match a
       case Send(_, _) => r' == r
       case Do(p, AddMessage(msg, _)) => r'.doc == r.doc + {NewMessage(r.doc, p, msg)}
       case Do(_, ReceiveSync(cs, _)) => r'.doc == Integrate(r.doc, cs)
       case Do(_, ResetToPersisted) => r'.doc == Content(r.tables)
  }

  lemma StepMoves(x: Replica, a: Action)
    requires Exact(x.repo)
    ensures Moves(x, a)
  {
    assert KeepsUp(After(x, a).repo) && Content(x.repo.tables) <= Content(After(x, a).repo.tables) by {
      ExactAfter(x, a);
    }
    if a.Do? && a.step.ResetToPersisted? {
      assert After(x, a).repo.doc == Content(x.repo.tables) by {
        LoadKeeps(x.repo.tables, SetupOf(a.p));
      }
    }
  }

  lemma RunMoves(acts: seq<Action>, trace: seq<Net>, i: nat)
    requires Run(acts, trace) && i < |acts|
    ensures KeepsUp(trace[i].peers[acts[i].p].repo) && Moves(trace[i].peers[acts[i].p], acts[i])
  {
    RunIsExact(acts, trace, i);
    StepMoves(trace[i].peers[acts[i].p], acts[i]);
  }

  // ----- crash consistency

  ghost predicate SentIsSaved(s: Net) {
    forall p :: p in s.peers ==> s.peers[p].sent <= Content(s.peers[p].repo.tables)
  }

  /** Sending is safe exactly when nothing in the message is still to be saved. */
  lemma SendSafeIff(r: Repo, sent: Changes, cs: Changes)
    requires Exact(r) && sent <= Content(r.tables) && cs <= r.doc
    ensures sent + cs <= Content(r.tables) <==> cs !! SaveAfter(r.doc, r.saved)
  {
    SaveAfterComplements(r.doc, Content(r.tables), r.saved);
    if sent + cs <= Content(r.tables) {
      assert cs <= Content(r.tables);
    } else {
      var c :| c in sent + cs && c !in Content(r.tables);
      assert c in cs && c in r.doc - Content(r.tables);
    }
  }

  lemma SentAfter(x: Replica, a: Action)
    requires Exact(x.repo) && x.sent <= Content(x.repo.tables)
    requires a.Send? ==> a.cs <= x.repo.doc && a.cs !! SaveAfter(x.repo.doc, x.repo.saved)
    ensures After(x, a).sent <= Content(After(x, a).repo.tables)
  {
    ExactAfter(x, a);
    if a.Send? {
      SendSafeIff(x.repo, x.sent, a.cs);
    }
  }

  lemma SentStep(s: Net, a: Action)
    requires AllExact(s) && SentIsSaved(s) && Enabled(s, a) && CarefulStep(s, a)
    ensures SentIsSaved(Apply(s, a))
  {
    SentAfter(s.peers[a.p], a);
  }

  ghost predicate AllSaved(s: Net) {
    forall p :: p in s.peers ==> Content(s.peers[p].repo.tables) == s.peers[p].repo.doc
  }

  lemma InitialSaved(s: Net)
    requires Initial(s)
    ensures AllSaved(s)
  {
    forall p | p in s.peers
      ensures Content(s.peers[p].repo.tables) == s.peers[p].repo.doc
    {
      LoadCreates(Tables(None, [], 0), SetupOf(p));
    }
  }

  lemma SavedAfter(x: Replica, a: Action)
    requires Exact(x.repo) && Content(x.repo.tables) == x.repo.doc && (a.Do? ==> Saves(a.step))
    ensures Content(After(x, a).repo.tables) == After(x, a).repo.doc
  {
    ExactAfter(x, a);
  }

  lemma SavedStep(acts: seq<Action>, trace: seq<Net>, i: nat)
    requires Run(acts, trace) && Saving(acts) && i < |acts| && AllSaved(trace[i])
    ensures AllSaved(trace[i + 1])
  {
    RunIsExact(acts, trace, i);
    SavedAfter(trace[i].peers[acts[i].p], acts[i]);
  }

  /** If every INSERT succeeds, there is never anything left to save. */
  lemma {:induction false} SavingKeepsUp(acts: seq<Action>, trace: seq<Net>, n: nat)
    requires Run(acts, trace) && Saving(acts) && n < |trace|
    ensures AllSaved(trace[n])
  {
    if n == 0 {
      InitialSaved(trace[0]);
    } else {
      SavingKeepsUp(acts, trace, n - 1);
      SavedStep(acts, trace, n - 1);
    }
  }

  lemma SavingIsCareful(acts: seq<Action>, trace: seq<Net>)
    requires Run(acts, trace) && Saving(acts)
    ensures Careful(acts, trace)
  {
    forall i | 0 <= i < |acts|
      ensures CarefulStep(trace[i], acts[i])
    {
      if acts[i].Send? {
        SavingKeepsUp(acts, trace, i);
        RunIsExact(acts, trace, i);
        NothingToSave(trace[i].peers[acts[i].p].repo);
      }
    }
  }

  /** One step of a run: what was sent stays in the tables exactly if the step is careful. */
  lemma SentStepIff(acts: seq<Action>, trace: seq<Net>, i: nat)
    requires Run(acts, trace) && i < |acts| && SentIsSaved(trace[i])
    ensures SentIsSaved(trace[i + 1]) <==> CarefulStep(trace[i], acts[i])
  {
    RunIsExact(acts, trace, i);
    var s, a := trace[i], acts[i];
    if CarefulStep(s, a) {
      SentStep(s, a);
    } else {
      var x := s.peers[a.p];
      SendSafeIff(x.repo, x.sent, a.cs);
      assert Apply(s, a).peers[a.p] == x.(sent := x.sent + a.cs);
    }
  }

  /** Every run, exactly: everything sent so far is in the tables of its sender, at every moment, if
      and only if no message carried a change that was still to be saved. */
  lemma {:induction false} SentSavedIffCareful(acts: seq<Action>, trace: seq<Net>, n: nat)
    requires Run(acts, trace) && n <= |acts|
    ensures (forall i :: 0 <= i <= n ==> SentIsSaved(trace[i])) <==>
            (forall i :: 0 <= i < n ==> CarefulStep(trace[i], acts[i]))
  {
    if n == 0 {
      assert SentIsSaved(trace[0]);
    } else {
      SentSavedIffCareful(acts, trace, n - 1);
      if forall i :: 0 <= i <= n - 1 ==> SentIsSaved(trace[i]) {
        assert SentIsSaved(trace[n - 1]);
        SentStepIff(acts, trace, n - 1);
      }
    }
  }

  lemma CarefulSaves(acts: seq<Action>, trace: seq<Net>, n: nat)
    requires Run(acts, trace) && Careful(acts, trace) && n < |trace|
    ensures SentIsSaved(trace[n])
  {
    SentSavedIffCareful(acts, trace, |acts|);
  }

  /** Crash consistency. In every run whose messages are careful, in particular in every run whose
      INSERTs succeed, and with restarts at any step: every change a peer ever put into a message is
      in its tables, so a restart never forgets anything another peer may hold. */
  lemma CrashConsistency(acts: seq<Action>, trace: seq<Net>, n: nat)
    requires Run(acts, trace) && Careful(acts, trace) && n < |trace|
    ensures AllExact(trace[n]) && SentIsSaved(trace[n])
    ensures forall p :: p in trace[n].peers ==>
      trace[n].peers[p].sent <= Load(trace[n].peers[p].repo.tables, SetupOf(p)).doc
  {
    RunIsExact(acts, trace, n);
    CarefulSaves(acts, trace, n);
    forall p | p in trace[n].peers
      ensures trace[n].peers[p].sent <= Load(trace[n].peers[p].repo.tables, SetupOf(p)).doc
    {
      LoadKeeps(trace[n].peers[p].repo.tables, SetupOf(p));
    }
  }

  // ----- exactly when a restart forgets

  /** The appends of peer `q` among some changes. */
  ghost function Own(cs: Changes, q: nat): Changes {
    set c | c in cs && c.author == q && c.op.Append?
  }

  /** Everything a peer has sent, or only the appends of its own. */
  ghost function Sent(x: Replica, p: nat, own: bool): Changes {
    if own then Own(x.sent, p) else x.sent
  }

  /** No peer has forgotten anything it sent. */
  ghost predicate Held(s: Net, own: bool) {
    forall p :: p in s.peers ==> Sent(s.peers[p], p, own) <= s.peers[p].repo.doc
  }

  /** A peer that restarts has saved what it sent, whether or not it had when it sent it. */
  ghost predicate RestartKeeps(s: Net, a: Action, own: bool) {
    a == Do(a.p, ResetToPersisted) && a.p in s.peers ==>
      Sent(s.peers[a.p], a.p, own) <= Content(s.peers[a.p].repo.tables)
  }

  ghost predicate RestartsKeep(acts: seq<Action>, trace: seq<Net>, own: bool, n: nat)
    requires n <= |acts| < |trace|
  {
    forall i :: 0 <= i < n ==> RestartKeeps(trace[i], acts[i], own)
  }

  lemma HeldAfter(x: Replica, a: Action, p: nat, own: bool)
    requires KeepsUp(x.repo) && Moves(x, a) && (a.Send? ==> a.cs <= x.repo.doc)
    requires Sent(x, p, own) <= x.repo.doc
    ensures Sent(After(x, a), p, own) <= After(x, a).repo.doc <==>
      (a.Do? && a.step.ResetToPersisted? ==> Sent(x, p, own) <= Content(x.repo.tables))
  {
    if a.Do? && a.step.ReceiveSync? {
      IntegrateIsLargest(x.repo.doc, a.step.cs);
    }
  }

  lemma HeldUpdated(s: Net, p: nat, x: Replica, own: bool)
    requires Held(s, own) && p in s.peers
    ensures Held(Net(s.peers[p := x]), own) <==> Sent(x, p, own) <= x.repo.doc
  {
    var s' := Net(s.peers[p := x]);
    assert s'.peers[p] == x;
  }

  lemma HeldStep(acts: seq<Action>, trace: seq<Net>, i: nat, own: bool)
    requires Run(acts, trace) && i < |acts| && Held(trace[i], own)
    ensures Held(trace[i + 1], own) <==> RestartKeeps(trace[i], acts[i], own)
  {
    RunMoves(acts, trace, i);
    var p := acts[i].p;
    HeldAfter(trace[i].peers[p], acts[i], p, own);
    HeldUpdated(trace[i], p, After(trace[i].peers[p], acts[i]), own);
  }

  /** Every run, exactly: at every moment every peer still has what it sent, if and only if every peer
      that restarts has saved what it sent. A change may be sent before it is saved, as long as it is
      saved before the restart. The same holds for the appends of its own alone. */
  lemma {:induction false} ForgetsNothingIff(acts: seq<Action>, trace: seq<Net>, own: bool, n: nat)
    requires Run(acts, trace) && n <= |acts|
    ensures (forall i :: 0 <= i <= n ==> Held(trace[i], own)) <==> RestartsKeep(acts, trace, own, n)
  {
    if n == 0 {
      assert Held(trace[0], own);
    } else {
      ForgetsNothingIff(acts, trace, own, n - 1);
      if forall i :: 0 <= i <= n - 1 ==> Held(trace[i], own) {
        assert Held(trace[n - 1], own);
        HeldStep(acts, trace, n - 1, own);
      }
    }
  }

  /** Careful runs are among these. */
  lemma CarefulKeeps(acts: seq<Action>, trace: seq<Net>, n: nat)
    requires Run(acts, trace) && Careful(acts, trace) && n <= |acts|
    ensures RestartsKeep(acts, trace, false, n) && RestartsKeep(acts, trace, true, n)
  {
    forall i | 0 <= i < n
      ensures RestartKeeps(trace[i], acts[i], false) && RestartKeeps(trace[i], acts[i], true)
    {
      CarefulSaves(acts, trace, i);
    }
  }
}

/** The message list of each peer, as every replica sees it.

    Only the peer itself appends to its list, and each append depends on everything the peer has. A
    list is read in an order that never puts a message before one of its own history; nothing else
    is assumed of the reading. */
module MessageLists {
  import opened ChangeGraph
  import opened Store
  import opened Repository
  import opened Replication

  /** An append creates the list exactly if there is no earlier append of its author. */
  ghost predicate WellMade(c: Change) {
    c.op.Append? ==>
      (c.op.creates <==> !exists d :: d != c && Below(d, c) && d.author == c.author && d.op.Append?)
  }

  /** Everything `p` has or sent comes from a known peer, which has sent it. */
  ghost predicate FromAuthors(s: Net, p: nat)
    requires p in s.peers
  {
    forall c :: c in s.peers[p].repo.doc || c in s.peers[p].sent ==> Traced(s, p, c)
  }

  ghost predicate Traced(s: Net, p: nat, c: Change) {
    c.author in s.peers && WellMade(c) && (c.author != p ==> c in s.peers[c.author].sent)
  }

  ghost predicate AllFromAuthors(s: Net) {
    forall p :: p in s.peers ==> FromAuthors(s, p)
  }

  /** A peer's own appends are one chain, and all it holds is well made. */
  ghost predicate OwnOk(doc: Changes, p: nat) {
    Chain(Own(doc, p)) && forall c :: c in doc ==> WellMade(c)
  }

  ghost predicate ListInv(s: Net) {
    Kept(s) && Held(s, true) && AllFromAuthors(s)
    && forall p :: p in s.peers ==> OwnOk(s.peers[p].repo.doc, p)
  }

  /** Each document holds the history of its members and all that the tables hold. */
  ghost predicate Kept(s: Net) {
    forall p :: p in s.peers ==> KeepsUp(s.peers[p].repo)
  }

  lemma SayKeepsOwn(doc: Changes, p: nat, msg: nat)
    requires Closed(doc) && OwnOk(doc, p)
    ensures OwnOk(doc + {NewMessage(doc, p, msg)}, p)
  {
    var c := NewMessage(doc, p, msg);
    OnTop(doc, c);
    assert WellMade(c) by {
      if HasList(doc, p) {
        var d :| d in doc && d.author == p && d.op.Append?;
        assert d != c && Below(d, c);
      }
    }
    assert Own(doc + {c}, p) == Own(doc, p) + {c};
    assert Chain(Own(doc, p) + {c}) by {
      assert Below(c, c);
    }
  }

  /** Nothing received adds to a peer's own list. */
  lemma HeardIsKnown(s: Net, p: nat, cs: Changes)
    requires ListInv(s) && p in s.peers && Heard(s, p, cs)
    ensures forall c :: c in cs ==>
      Traced(s, p, c) && (c.author == p && c.op.Append? ==> c in s.peers[p].repo.doc)
  {
    var q :| q in s.peers && q != p && cs <= s.peers[q].sent;
    assert FromAuthors(s, q);
    forall c | c in cs
      ensures Traced(s, p, c) && (c.author == p && c.op.Append? ==> c in s.peers[p].repo.doc)
    {
      assert Traced(s, q, c) && c in s.peers[c.author].sent;
      if c.author == p && c.op.Append? {
        assert c in Sent(s.peers[p], p, true);
      }
    }
  }

  lemma HearKeepsOwn(s: Net, p: nat, cs: Changes)
    requires ListInv(s) && p in s.peers && Heard(s, p, cs)
    ensures
      var doc := Integrate(s.peers[p].repo.doc, cs);
      && OwnOk(doc, p) && Own(doc, p) == Own(s.peers[p].repo.doc, p)
      && forall c :: c in doc ==> c in s.peers[p].repo.doc || c in cs
  {
    HeardIsKnown(s, p, cs);
    assert KeepsUp(s.peers[p].repo) && OwnOk(s.peers[p].repo.doc, p);
    NothingNewOfOwn(s.peers[p].repo.doc, p, cs);
  }

  lemma NothingNewOfOwn(doc: Changes, p: nat, cs: Changes)
    requires Closed(doc) && OwnOk(doc, p)
    requires forall c :: c in cs ==> WellMade(c) && (c.author == p && c.op.Append? ==> c in doc)
    ensures OwnOk(Integrate(doc, cs), p) && Own(Integrate(doc, cs), p) == Own(doc, p)
    ensures forall c :: c in Integrate(doc, cs) ==> c in doc || c in cs
  {
    IntegrateIsLargest(doc, cs);
    assert Own(Integrate(doc, cs), p) == Own(doc, p);
  }

  lemma OwnAfter(s: Net, a: Action)
    requires ListInv(s) && Enabled(s, a) && Moves(s.peers[a.p], a)
    ensures OwnOk(After(s.peers[a.p], a).repo.doc, a.p)
  {
    var r := s.peers[a.p].repo;
    assert KeepsUp(r) && OwnOk(r.doc, a.p);
    if a.Do? {
      match a.step
      case AddMessage(msg, _) => SayKeepsOwn(r.doc, a.p, msg);
      case ReceiveSync(cs, _) => HearKeepsOwn(s, a.p, cs);
      case ResetToPersisted =>
        assert Own(Content(r.tables), a.p) <= Own(r.doc, a.p);
    }
  }

  lemma SayIsWellMade(doc: Changes, p: nat, msg: nat)
    requires Closed(doc) && OwnOk(doc, p)
    ensures WellMade(NewMessage(doc, p, msg))
  {
    SayKeepsOwn(doc, p, msg);
    assert NewMessage(doc, p, msg) in doc + {NewMessage(doc, p, msg)};
  }

  lemma TracedAfter(s: Net, a: Action)
    requires ListInv(s) && Enabled(s, a) && Moves(s.peers[a.p], a)
    ensures
      var y := After(s.peers[a.p], a);
      forall c :: c in y.repo.doc || c in y.sent ==> Traced(s, a.p, c)
  {
    var r := s.peers[a.p].repo;
    assert KeepsUp(r) && FromAuthors(s, a.p) && OwnOk(r.doc, a.p);
    if a.Do? {
      match a.step
      case AddMessage(msg, _) => SayIsWellMade(r.doc, a.p, msg);
      case ReceiveSync(cs, _) =>
        HeardIsKnown(s, a.p, cs);
        HearKeepsOwn(s, a.p, cs);
      case ResetToPersisted =>
    }
  }

  lemma AuthorsUpdated(s: Net, p: nat, x: Replica)
    requires AllFromAuthors(s) && p in s.peers && s.peers[p].sent <= x.sent
    requires forall c :: c in x.repo.doc || c in x.sent ==> Traced(s, p, c)
    ensures AllFromAuthors(Net(s.peers[p := x]))
  {
    var s' := Net(s.peers[p := x]);
    forall q | q in s'.peers
      ensures FromAuthors(s', q)
    {
      assert FromAuthors(s, q);
      forall c | c in s'.peers[q].repo.doc || c in s'.peers[q].sent
        ensures Traced(s', q, c)
      {
        assert Traced(s, q, c);
      }
    }
  }

  lemma ListStep(s: Net, a: Action)
    requires ListInv(s) && Enabled(s, a) && Moves(s.peers[a.p], a) && Held(Apply(s, a), true)
    ensures ListInv(Apply(s, a))
  {
    TracedAfter(s, a);
    AuthorsUpdated(s, a.p, After(s.peers[a.p], a));
    OwnAfter(s, a);
  }

  lemma ListInit(s: Net)
    requires Initial(s)
    ensures ListInv(s)
  {
    InitialExact(s);
  }

  lemma {:induction false} RunKeepsListInv(acts: seq<Action>, trace: seq<Net>, n: nat)
    requires Run(acts, trace) && n <= |acts| && RestartsKeep(acts, trace, true, n)
    ensures ListInv(trace[n])
  {
    if n == 0 {
      ListInit(trace[0]);
    } else {
      RunKeepsListInv(acts, trace, n - 1);
      RunListStep(acts, trace, n - 1);
    }
  }

  lemma RunListStep(acts: seq<Action>, trace: seq<Net>, i: nat)
    requires Run(acts, trace) && i < |acts| && ListInv(trace[i]) && RestartKeeps(trace[i], acts[i], true)
    ensures ListInv(trace[i + 1])
  {
    HeldStep(acts, trace, i, true);
    RunMoves(acts, trace, i);
    ListStep(trace[i], acts[i]);
  }

  /** Prefix property. As long as every peer that restarted had saved the messages of its own that it
      had sent, at every moment: however replica `p` reads the list of
      peer `q`, and however `q` reads it, the first reading is a prefix of the second. */
  lemma PrefixProperty(acts: seq<Action>, trace: seq<Net>, n: nat, p: nat, q: nat,
                       atP: seq<Change>, atQ: seq<Change>)
    requires Run(acts, trace) && n <= |acts| && RestartsKeep(acts, trace, true, n)
    requires p in trace[n].peers && q in trace[n].peers
    requires Lists(atP, Own(trace[n].peers[p].repo.doc, q))
    requires Lists(atQ, Own(trace[n].peers[q].repo.doc, q))
    ensures atP <= atQ
  {
    RunKeepsListInv(acts, trace, n);
    PartOfOwn(trace[n], p, q);
    ListsPrefix(Own(trace[n].peers[p].repo.doc, q), Own(trace[n].peers[q].repo.doc, q), atP, atQ);
  }

  lemma PartOfOwn(s: Net, p: nat, q: nat)
    requires ListInv(s) && p in s.peers && q in s.peers
    ensures Own(s.peers[p].repo.doc, q) <= Own(s.peers[q].repo.doc, q)
    ensures Chain(Own(s.peers[q].repo.doc, q))
    ensures forall c, d ::
      c in Own(s.peers[p].repo.doc, q) && d in Own(s.peers[q].repo.doc, q) && Below(d, c)
      ==> d in Own(s.peers[p].repo.doc, q)
  {
    var doc, own := s.peers[p].repo.doc, s.peers[q].repo.doc;
    assert KeepsUp(s.peers[p].repo) && FromAuthors(s, p) && OwnOk(own, q);
    forall c | c in Own(doc, q)
      ensures c in Own(own, q)
    {
      assert Traced(s, p, c);
      assert p != q ==> c in Sent(s.peers[q], q, true);
    }
    forall c, d | c in Own(doc, q) && d in Own(own, q) && Below(d, c)
      ensures d in Own(doc, q)
    {
      ClosedHoldsHistory(doc, d, c);
    }
  }

  /** In the same runs, every replica has exactly one reading of every list. */
  lemma OneReading(acts: seq<Action>, trace: seq<Net>, n: nat, p: nat, q: nat) returns (atP: seq<Change>)
    requires Run(acts, trace) && n <= |acts| && RestartsKeep(acts, trace, true, n)
    requires p in trace[n].peers && q in trace[n].peers
    ensures forall s :: Lists(s, Own(trace[n].peers[p].repo.doc, q)) <==> s == atP
  {
    RunKeepsListInv(acts, trace, n);
    PartOfOwn(trace[n], p, q);
    var own := Own(trace[n].peers[p].repo.doc, q);
    atP := ListingExists(own);
    forall s | Lists(s, own)
      ensures s == atP
    {
      ListsPrefix(own, own, s, atP);
      ListsPrefix(own, own, atP, s);
    }
  }

  /** In the same runs, the list of a peer is created at most once in every replica, by the first of its appends. */
  lemma ListCreatedOnce(acts: seq<Action>, trace: seq<Net>, n: nat, p: nat, q: nat, atP: seq<Change>)
    requires Run(acts, trace) && n <= |acts| && RestartsKeep(acts, trace, true, n)
    requires p in trace[n].peers && q in trace[n].peers
    requires Lists(atP, Own(trace[n].peers[p].repo.doc, q))
    ensures forall i :: 0 <= i < |atP| ==> atP[i].op.Append? && (atP[i].op.creates <==> i == 0)
  {
    RunKeepsListInv(acts, trace, n);
    FirstCreates(trace[n], p, q, atP);
  }

  lemma FirstCreates(s: Net, p: nat, q: nat, atP: seq<Change>)
    requires ListInv(s) && p in s.peers && q in s.peers
    requires Lists(atP, Own(s.peers[p].repo.doc, q))
    ensures forall i :: 0 <= i < |atP| ==> atP[i].op.Append? && (atP[i].op.creates <==> i == 0)
  {
    PartOfOwn(s, p, q);
    var doc := s.peers[p].repo.doc;
    assert KeepsUp(s.peers[p].repo) && OwnOk(doc, p);
    forall i | 0 <= i < |atP|
      ensures atP[i].op.Append? && (atP[i].op.creates <==> i == 0)
    {
      assert atP[i] in atP && atP[0] in atP;
      if i > 0 {
        assert Below(atP[0], atP[i]);
      } else {
        forall d | Below(d, atP[0]) && d.author == q && d.op.Append?
          ensures d == atP[0]
        {
          ClosedHoldsHistory(doc, d, atP[0]);
          assert d in Own(doc, q);
          var k :| 0 <= k < |atP| && atP[k] == d;
        }
      }
    }
  }

  // ----- all messages a peer ever added

  /** Every peer has exactly the changes it ever committed for its messages as its own list. */
  ghost predicate HasAllSaid(s: Net) {
    forall p :: p in s.peers ==> Lists(s.peers[p].said, Own(s.peers[p].repo.doc, p))
  }

  /** A peer that restarts has saved the messages of its own, sent or not. */
  ghost predicate RestartKeepsOwn(s: Net, a: Action) {
    a == Do(a.p, ResetToPersisted) && a.p in s.peers ==>
      Own(s.peers[a.p].repo.doc, a.p) <= Content(s.peers[a.p].repo.tables)
  }

  ghost predicate RestartsKeepOwn(acts: seq<Action>, trace: seq<Net>, n: nat)
    requires n <= |acts| < |trace|
  {
    forall i :: 0 <= i < n ==> RestartKeepsOwn(trace[i], acts[i])
  }

  lemma SaidGrows(doc: Changes, p: nat, msg: nat, said: seq<Change>)
    requires Closed(doc) && Lists(said, Own(doc, p))
    ensures
      var c := NewMessage(doc, p, msg);
      Lists(said + [c], Own(doc + {c}, p))
  {
    var c := NewMessage(doc, p, msg);
    OnTop(doc, c);
    assert Own(doc + {c}, p) == Own(doc, p) + {c};
    forall i | 0 <= i < |said|
      ensures said[i] != c && !Below(c, said[i])
    {
      assert said[i] in said;
      if Below(c, said[i]) {
        ClosedHoldsHistory(doc, c, said[i]);
      }
    }
  }

  lemma SaidAfter(s: Net, a: Action)
    requires ListInv(s) && Enabled(s, a) && Moves(s.peers[a.p], a)
    requires Lists(s.peers[a.p].said, Own(s.peers[a.p].repo.doc, a.p))
    ensures Lists(After(s.peers[a.p], a).said, Own(After(s.peers[a.p], a).repo.doc, a.p))
       <==> RestartKeepsOwn(s, a)
  {
    var x := s.peers[a.p];
    assert KeepsUp(x.repo);
    if a.Do? {
      match a.step
      case AddMessage(msg, _) => SaidGrows(x.repo.doc, a.p, msg, x.said);
      case ReceiveSync(cs, _) => HearKeepsOwn(s, a.p, cs);
      case ResetToPersisted => SaidReset(x.repo.doc, Content(x.repo.tables), a.p, x.said);
    }
  }

  lemma SaidReset(doc: Changes, stored: Changes, p: nat, said: seq<Change>)
    requires stored <= doc && Lists(said, Own(doc, p))
    ensures Lists(said, Own(stored, p)) <==> Own(doc, p) <= stored
  {
    if Own(doc, p) <= stored {
      assert Own(stored, p) == Own(doc, p);
    } else {
      var c :| c in Own(doc, p) && c !in stored;
      assert c in said && c !in Own(stored, p);
    }
  }

  lemma SaidUpdated(s: Net, p: nat, x: Replica)
    requires HasAllSaid(s) && p in s.peers
    ensures HasAllSaid(Net(s.peers[p := x])) <==> Lists(x.said, Own(x.repo.doc, p))
  {
    var s' := Net(s.peers[p := x]);
    assert s'.peers[p] == x;
  }

  lemma SaidStep(acts: seq<Action>, trace: seq<Net>, i: nat)
    requires Run(acts, trace) && i < |acts| && ListInv(trace[i]) && HasAllSaid(trace[i])
    ensures HasAllSaid(trace[i + 1]) <==> RestartKeepsOwn(trace[i], acts[i])
    ensures RestartKeepsOwn(trace[i], acts[i]) ==> ListInv(trace[i + 1])
  {
    var s, a := trace[i], acts[i];
    RunMoves(acts, trace, i);
    SaidAfter(s, a);
    SaidUpdated(s, a.p, After(s.peers[a.p], a));
    if RestartKeepsOwn(s, a) {
      SentIsOwn(s, a);
      RunListStep(acts, trace, i);
    }
  }

  lemma SentIsOwn(s: Net, a: Action)
    requires Held(s, true) && RestartKeepsOwn(s, a)
    ensures RestartKeeps(s, a, true)
  {
    if a == Do(a.p, ResetToPersisted) && a.p in s.peers {
      var x := s.peers[a.p];
      assert Sent(x, a.p, true) <= Own(x.repo.doc, a.p);
    }
  }

  lemma SaidInit(s: Net)
    requires Initial(s)
    ensures HasAllSaid(s)
  {
    InitialExact(s);
  }

  lemma {:induction false} HasAllChangesIff(acts: seq<Action>, trace: seq<Net>, n: nat)
    requires Run(acts, trace) && n <= |acts|
    ensures (forall i :: 0 <= i <= n ==> HasAllSaid(trace[i])) <==> RestartsKeepOwn(acts, trace, n)
    ensures RestartsKeepOwn(acts, trace, n) ==> ListInv(trace[n])
  {
    if n == 0 {
      SaidInit(trace[0]);
      ListInit(trace[0]);
    } else {
      HasAllChangesIff(acts, trace, n - 1);
      if RestartsKeepOwn(acts, trace, n - 1) {
        assert HasAllSaid(trace[n - 1]);
        SaidStep(acts, trace, n - 1);
      }
    }
  }

  /** Peer `p` reads in its own list exactly the given messages, in order. */
  ghost predicate Reads(s: Net, p: nat, msgs: seq<nat>)
    requires p in s.peers
  {
    exists r :: Lists(r, Own(s.peers[p].repo.doc, p)) && Texts(r) == msgs
  }

  ghost predicate AllRead(s: Net, acts: seq<Action>) {
    forall p :: p in s.peers ==> Reads(s, p, Added(acts, p))
  }

  lemma SaidIsRead(acts: seq<Action>, trace: seq<Net>, n: nat)
    requires Run(acts, trace) && n <= |acts| && HasAllSaid(trace[n])
    ensures AllRead(trace[n], acts[..n])
  {
    forall p | p in trace[n].peers
      ensures Reads(trace[n], p, Added(acts[..n], p))
    {
      SaidIsAdded(acts, trace, n, p);
      assert Lists(trace[n].peers[p].said, Own(trace[n].peers[p].repo.doc, p));
    }
  }

  /** A restart that loses a message of its own leaves too few of them. */
  lemma LostIsMissed(acts: seq<Action>, trace: seq<Net>, i: nat)
    requires Run(acts, trace) && i < |acts| && HasAllSaid(trace[i]) && !RestartKeepsOwn(trace[i], acts[i])
    ensures !AllRead(trace[i + 1], acts[..i + 1])
  {
    var p := acts[i].p;
    RunMoves(acts, trace, i);
    SaidIsAdded(acts, trace, i, p);
    assert acts[..i + 1][..i] == acts[..i];
    var x, y := trace[i].peers[p], trace[i + 1].peers[p];
    assert y.repo.doc == Content(x.repo.tables);
    OwnShrinks(x.repo.doc, y.repo.doc, p);
    ListsLength(x.said, Own(x.repo.doc, p));
    if AllRead(trace[i + 1], acts[..i + 1]) {
      assert Reads(trace[i + 1], p, Added(acts[..i + 1], p));
      var r :| Lists(r, Own(y.repo.doc, p)) && Texts(r) == Added(acts[..i + 1], p);
      ListsLength(r, Own(y.repo.doc, p));
    }
  }

  lemma OwnShrinks(doc: Changes, stored: Changes, p: nat)
    requires stored <= doc && !(Own(doc, p) <= stored)
    ensures |Own(stored, p)| < |Own(doc, p)|
  {
    var c :| c in Own(doc, p) && c !in stored;
    Smaller(Own(stored, p), Own(doc, p) - {c});
  }

  /** Every run, exactly: at every moment every peer reads in its own list all messages it was ever
      given to add, in order, if and only if every peer that restarts has saved those of its own. */
  lemma {:induction false} HasAllSaidIff(acts: seq<Action>, trace: seq<Net>, n: nat)
    requires Run(acts, trace) && n <= |acts|
    ensures (forall i :: 0 <= i <= n ==> AllRead(trace[i], acts[..i])) <==> RestartsKeepOwn(acts, trace, n)
  {
    HasAllChangesIff(acts, trace, n);
    if RestartsKeepOwn(acts, trace, n) {
      forall i | 0 <= i <= n
        ensures AllRead(trace[i], acts[..i])
      {
        SaidIsRead(acts, trace, i);
      }
    } else {
      HasAllSaidIff(acts, trace, n - 1);
      if RestartsKeepOwn(acts, trace, n - 1) {
        HasAllChangesIff(acts, trace, n - 1);
        assert HasAllSaid(trace[n - 1]);
        LostIsMissed(acts, trace, n - 1);
      }
    }
  }

  /** If every INSERT succeeds, restarts lose nothing. */
  lemma SavingKeepsOwn(acts: seq<Action>, trace: seq<Net>, n: nat)
    requires Run(acts, trace) && Saving(acts) && n <= |acts|
    ensures RestartsKeepOwn(acts, trace, n)
  {
    forall i | 0 <= i < n
      ensures RestartKeepsOwn(trace[i], acts[i])
    {
      SavingKeepsUp(acts, trace, i);
    }
  }

  /** As long as every peer that restarted had saved the messages of its own, as it has if every INSERT
      succeeds, what any replica reads of a peer's list is a prefix of all messages that peer was ever
      given to add, in order. */
  lemma PrefixOfAllSaid(acts: seq<Action>, trace: seq<Net>, n: nat, p: nat, q: nat, atP: seq<Change>)
    requires Run(acts, trace) && n <= |acts| && RestartsKeepOwn(acts, trace, n)
    requires p in trace[n].peers && q in trace[n].peers
    requires Lists(atP, Own(trace[n].peers[p].repo.doc, q))
    ensures Texts(atP) <= Added(acts[..n], q)
    ensures atP <= trace[n].peers[q].said
  {
    HasAllChangesIff(acts, trace, n);
    assert HasAllSaid(trace[n]);
    PartOfOwn(trace[n], p, q);
    ListsPrefix(Own(trace[n].peers[p].repo.doc, q), Own(trace[n].peers[q].repo.doc, q),
                atP, trace[n].peers[q].said);
    SaidIsAdded(acts, trace, n, q);
  }

  // ----- a run that breaks all of this

  lemma Extend(acts: seq<Action>, trace: seq<Net>, a: Action) returns (acts': seq<Action>, trace': seq<Net>)
    requires Run(acts, trace) && Enabled(trace[|acts|], a)
    ensures acts' == acts + [a] && trace' == trace + [Apply(trace[|acts|], a)] && Run(acts', trace')
    ensures KeepsUp(trace[|acts|].peers[a.p].repo) && Moves(trace[|acts|].peers[a.p], a)
  {
    acts', trace' := acts + [a], trace + [Apply(trace[|acts|], a)];
    RunMoves(acts', trace', |acts|);
  }

  /** The document and the tables of a peer that has only its set-up change. */
  ghost predicate Fresh(r: Repo, p: nat) {
    r.doc == Content(r.tables) == {SetupOf(p)}
  }

  lemma TwoPeers() returns (trace: seq<Net>)
    ensures Run([], trace) && trace[0].peers.Keys == {0, 1}
    ensures Fresh(trace[0].peers[0].repo, 0) && Fresh(trace[0].peers[1].repo, 1)
    ensures trace[0].peers[0].sent == {}
  {
    trace := [Net(map[0 := NewReplica(0), 1 := NewReplica(1)])];
    InitialExact(trace[0]);
    InitialSaved(trace[0]);
  }

  /** The first message of peer 0. */
  function First(msg: nat): Change {
    Change(0, Append(true, msg), {SetupOf(0)})
  }

  lemma FirstIsNew(msg: nat)
    ensures NewMessage({SetupOf(0)}, 0, msg) == First(msg)
  {
    assert Heads({SetupOf(0)}) == {SetupOf(0)};
  }

  /** Peer 0 adds its first message and sends it, with the change it depends on. */
  lemma SaysFirst(acts: seq<Action>, trace: seq<Net>, msg: nat)
    returns (acts': seq<Action>, trace': seq<Net>)
    requires Run(acts, trace) && trace[|acts|].peers.Keys == {0, 1} && Fresh(trace[|acts|].peers[0].repo, 0)
    ensures Run(acts', trace')
    ensures
      var s, s' := trace[|acts|], trace'[|acts'|];
      && s'.peers.Keys == {0, 1} && s'.peers[1] == s.peers[1]
      && s'.peers[0].repo.doc == {SetupOf(0), First(msg)}
      && Content(s'.peers[0].repo.tables) == {SetupOf(0)}
      && s'.peers[0].sent == s.peers[0].sent + {SetupOf(0), First(msg)}
  {
    var s := trace[|acts|];
    FirstIsNew(msg);
    acts', trace' := Extend(acts, trace, Do(0, AddMessage(msg, false)));
    acts', trace' := Extend(acts', trace', Send(0, {SetupOf(0), First(msg)}));
  }

  /** Peer 1 takes in what peer 0 has sent last. */
  lemma HearsFirst(acts: seq<Action>, trace: seq<Net>, msg: nat)
    returns (acts': seq<Action>, trace': seq<Net>)
    requires Run(acts, trace) && trace[|acts|].peers.Keys == {0, 1}
    requires {SetupOf(0), First(msg)} <= trace[|acts|].peers[0].sent
    ensures Run(acts', trace')
    ensures
      var s, s' := trace[|acts|], trace'[|acts'|];
      && s'.peers.Keys == {0, 1} && s'.peers[0] == s.peers[0]
      && s.peers[1].repo.doc + {SetupOf(0), First(msg)} <= s'.peers[1].repo.doc
  {
    var s := trace[|acts|];
    var cs := {SetupOf(0), First(msg)};
    assert Heard(s, 1, cs);
    acts', trace' := Extend(acts, trace, Do(1, ReceiveSync(cs, true)));
    FirstApplies(s.peers[1].repo.doc, msg);
  }

  lemma FirstApplies(doc: Changes, msg: nat)
    requires Closed(doc)
    ensures doc + {SetupOf(0), First(msg)} <= Integrate(doc, {SetupOf(0), First(msg)})
  {
    var cs := {SetupOf(0), First(msg)};
    assert Closed(doc + cs);
    IntegrateIsLargest(doc, cs);
  }

  /** Peer 0 restarts with only its set-up change saved. */
  lemma Restarts(acts: seq<Action>, trace: seq<Net>) returns (acts': seq<Action>, trace': seq<Net>)
    requires Run(acts, trace) && trace[|acts|].peers.Keys == {0, 1}
    requires Content(trace[|acts|].peers[0].repo.tables) == {SetupOf(0)}
    ensures Run(acts', trace')
    ensures
      var s, s' := trace[|acts|], trace'[|acts'|];
      && s'.peers.Keys == {0, 1} && s'.peers[1] == s.peers[1]
      && Fresh(s'.peers[0].repo, 0) && s'.peers[0].sent == s.peers[0].sent
  {
    acts', trace' := Extend(acts, trace, Do(0, ResetToPersisted));
  }

  lemma NoPrefix(some: Changes, all: Changes, c: Change)
    requires c in some && c !in all
    ensures forall s, t :: Lists(s, some) && Lists(t, all) ==> !(s <= t)
  {
    forall s, t | Lists(s, some) && Lists(t, all)
      ensures !(s <= t)
    {
      assert c in s && c !in t;
    }
  }

  /** A message whose INSERT failed is sent and taken in, its author restarts, and adds and sends
      another one. The author has forgotten a message it sent; in the other replica its list is
      created twice, and no reading of it there is a prefix of the author's. */
  lemma UnsavedSendForgets() returns (acts: seq<Action>, trace: seq<Net>, c: Change, d: Change)
    ensures Run(acts, trace) && trace[|acts|].peers.Keys == {0, 1} && c != d
    ensures
      var x, doc := trace[|acts|].peers[0], trace[|acts|].peers[1].repo.doc;
      && c in x.sent && c !in x.repo.doc && d in x.repo.doc
      && c in Own(doc, 0) && d in Own(doc, 0) && c.op.creates && d.op.creates
      && forall at1, at0 :: Lists(at1, Own(doc, 0)) && Lists(at0, Own(x.repo.doc, 0)) ==> !(at1 <= at0)
  {
    c, d := First(7), First(8);
    acts := [];
    trace := TwoPeers();
    acts, trace := SaysFirst(acts, trace, 7);
    acts, trace := HearsFirst(acts, trace, 7);
    acts, trace := Restarts(acts, trace);
    acts, trace := SaysFirst(acts, trace, 8);
    acts, trace := HearsFirst(acts, trace, 8);
    NoPrefix(Own(trace[|acts|].peers[1].repo.doc, 0), Own(trace[|acts|].peers[0].repo.doc, 0), c);
  }
}

/** One chat repository: the document in memory, the heads it believes are saved, and its tables. */
module Repository {
  import opened Options
  import opened ChangeGraph
  import opened Store

  datatype Repo = Repo(doc: Changes, saved: Changes, tables: Tables)

  /** `get_persisted_doc_state` without interference: a missing chat is created with the given
      set-up change; otherwise snapshot and log are read back, and a long log is compacted. */
  function LoadedTables(t: Tables, setup: Change): Tables {
    if t.snapshot.None? then t.(snapshot := Some({setup}))
    else if |t.log| > CHAT_LOGS_LIMIT then Compact(t, LoadedDoc(t, setup), t.log[|t.log| - 1].id)
    else t
  }

  function LoadedDoc(t: Tables, setup: Change): Changes {
    if t.snapshot.None? then {setup}
    else Integrate(t.snapshot.value, Logged(t.log))
  }

  function Load(t: Tables, setup: Change): Repo {
    Repo(LoadedDoc(t, setup), Heads(LoadedDoc(t, setup)), LoadedTables(t, setup))
  }

  /** `persist_chat`; the INSERT may fail. */
  function AfterPersist(r: Repo, insertOk: bool): Repo {
    var unsaved := SaveAfter(r.doc, r.saved);
    if unsaved == {} || !insertOk then r
    else Repo(r.doc, Heads(r.doc), AppendRow(r.tables, unsaved))
  }

  /** The change `add_message` commits: it depends on everything the author has, and creates the
      author's list if there is none. */
  function NewMessage(doc: Changes, me: nat, msg: nat): Change {
    Change(me, Append(!HasList(doc, me), msg), Heads(doc))
  }

  predicate HasList(doc: Changes, me: nat) {
    exists c :: c in doc && c.author == me && c.op.Append?
  }

  /** The change `add_message` commits carries the given message in its author's name, on top of
      everything the document has, and creates the list exactly if the author had none. */
  ghost predicate Adds(doc: Changes, c: Change, me: nat, msg: nat) {
    && c !in doc && c.author == me && c.op.Append? && c.op.msg == msg
    && c.deps <= doc && (forall d :: d in doc ==> Below(d, c))
    && (c.op.creates <==> !exists d :: d in doc && d.author == me && d.op.Append?)
  }

  lemma NewMessageAdds(doc: Changes, me: nat, msg: nat)
    requires Closed(doc)
    ensures Adds(doc, NewMessage(doc, me, msg), me, msg)
  {
    OnTop(doc, NewMessage(doc, me, msg));
  }

  function AfterAdd(r: Repo, me: nat, msg: nat, insertOk: bool): Repo {
    AfterPersist(r.(doc := r.doc + {NewMessage(r.doc, me, msg)}), insertOk)
  }

  function AfterReceive(r: Repo, cs: Changes, insertOk: bool): Repo {
    AfterPersist(r.(doc := Integrate(r.doc, cs)), insertOk)
  }

  /** Snapshot and log hold exactly what the saved heads stand for, and nothing the document does
      not have. */
  ghost predicate Exact(r: Repo) {
    && Closed(r.doc) && Sound(r.tables) && r.tables.snapshot.Some?
    && Generates(r.saved, Content(r.tables)) && Content(r.tables) <= r.doc
  }

  lemma LoadedTablesKeep(t: Tables, setup: Change)
    requires Sound(t) && t.snapshot.Some?
    ensures LoadedDoc(t, setup) == Content(t)
    ensures Content(LoadedTables(t, setup)) == Content(t)
    ensures Sound(LoadedTables(t, setup)) && LoadedTables(t, setup).snapshot.Some?
  {
    IntegrateIsLargest(t.snapshot.value, Logged(t.log));
    if |t.log| > CHAT_LOGS_LIMIT {
      CompactionKeepsContent(t, |t.log|);
      assert t.log[..|t.log|] == t.log;
    }
  }

  /** Loading gives back exactly what the tables hold, and keeps it there. */
  lemma LoadKeeps(t: Tables, setup: Change)
    requires Sound(t) && t.snapshot.Some?
    ensures
      var r := Load(t, setup);
      Exact(r) && r.doc == Content(r.tables) == Content(t)
  {
    LoadedTablesKeep(t, setup);
    HeadsGenerate(Content(t));
  }

  /** Loading empties a log that is too long and leaves any other alone. */
  lemma LoadBoundsLog(t: Tables, setup: Change)
    requires Sound(t)
    ensures
      var log := Load(t, setup).tables.log;
      |log| <= CHAT_LOGS_LIMIT && log == (if |t.log| > CHAT_LOGS_LIMIT then [] else t.log)
  {
    if t.snapshot.Some? && |t.log| > CHAT_LOGS_LIMIT {
      RowsAboveIsSuffix(t.log, |t.log|);
    }
  }

  lemma LoadCreates(t: Tables, setup: Change)
    requires Sound(t) && t.snapshot.None? && setup.deps == {}
    ensures
      var r := Load(t, setup);
      Exact(r) && r.doc == Content(r.tables) == {setup}
  {
    assert Logged([]) == {};
    HeadsGenerate({setup});
  }

  lemma InsertIsExact(r: Repo)
    requires Exact(r)
    ensures
      var t := AppendRow(r.tables, SaveAfter(r.doc, r.saved));
      Exact(Repo(r.doc, Heads(r.doc), t)) && Content(t) == r.doc
  {
    var t := AppendRow(r.tables, SaveAfter(r.doc, r.saved));
    assert Content(t) == r.doc by {
      SaveAfterComplements(r.doc, Content(r.tables), r.saved);
      AppendAdds(r.tables, SaveAfter(r.doc, r.saved));
    }
    assert Ordered(t) by {
      AppendAdds(r.tables, SaveAfter(r.doc, r.saved));
    }
    HeadsGenerate(r.doc);
  }

  /** `save_after` finds nothing exactly when the tables already hold the document. */
  lemma NothingToSave(r: Repo)
    requires Exact(r)
    ensures SaveAfter(r.doc, r.saved) == {} <==> Content(r.tables) == r.doc
  {
    SaveAfterComplements(r.doc, Content(r.tables), r.saved);
    if r.doc - Content(r.tables) == {} {
      assert forall c :: c in r.doc ==> c !in r.doc - Content(r.tables);
    }
  }

  /** A successful `persist_chat` saves the whole document, whatever earlier failures left behind;
      a failed one changes nothing. */
  lemma PersistIsExact(r: Repo, insertOk: bool)
    requires Exact(r)
    ensures
      var r' := AfterPersist(r, insertOk);
      && Exact(r') && r'.doc == r.doc
      && (insertOk ==> Content(r'.tables) == r.doc)
      && (!insertOk ==> r' == r)
      && Content(r.tables) <= Content(r'.tables)
  {
    NothingToSave(r);
    if SaveAfter(r.doc, r.saved) != {} {
      InsertIsExact(r);
    }
  }

  // ----- any sequence of operations

  datatype Step =
    | AddMessage(msg: nat, insertOk: bool)
    | ReceiveSync(cs: Changes, insertOk: bool)
    | ResetToPersisted

  function Perform(r: Repo, me: nat, setup: Change, step: Step): Repo {
    match step
    case AddMessage(msg, ok) => AfterAdd(r, me, msg, ok)
    case ReceiveSync(cs, ok) => AfterReceive(r, cs, ok)
    case ResetToPersisted => Load(r.tables, setup)
  }

  function PerformAll(r: Repo, me: nat, setup: Change, steps: seq<Step>): Repo {
    if steps == [] then r
    else Perform(PerformAll(r, me, setup, steps[..|steps| - 1]), me, setup, steps[|steps| - 1])
  }

  ghost predicate Saves(step: Step) {
    step.ResetToPersisted? || step.insertOk
  }

  lemma AddKeepsExact(r: Repo, c: Change)
    requires Exact(r) && c.deps <= r.doc
    ensures Exact(r.(doc := r.doc + {c}))
  {
  }

  /** What is applied: nothing is lost, nothing comes from elsewhere, and no document that could be
      made of these changes has more. */
  ghost predicate LargestPart(doc: Changes, before: Changes, cs: Changes) {
    && before <= doc <= before + cs && Closed(doc)
    && forall d: Changes :: Closed(d) && d <= before + cs ==> d <= doc
  }

  lemma ReceiveKeepsExact(r: Repo, cs: Changes)
    requires Exact(r)
    ensures r.doc <= Integrate(r.doc, cs) && Exact(r.(doc := Integrate(r.doc, cs)))
    ensures LargestPart(Integrate(r.doc, cs), r.doc, cs)
  {
    IntegrateIsLargest(r.doc, cs);
  }

  lemma AddEffect(r: Repo, me: nat, msg: nat, insertOk: bool)
    requires Exact(r)
    ensures
      var c, r' := NewMessage(r.doc, me, msg), AfterAdd(r, me, msg, insertOk);
      && Adds(r.doc, c, me, msg) && r'.doc == r.doc + {c} && r'.doc != Content(r.tables)
      && Content(r'.tables) == if insertOk then r'.doc else Content(r.tables)
  {
    var c := NewMessage(r.doc, me, msg);
    NewMessageAdds(r.doc, me, msg);
    AddKeepsExact(r, c);
    PersistIsExact(r.(doc := r.doc + {c}), insertOk);
  }

  lemma StepIsExact(r: Repo, me: nat, setup: Change, step: Step)
    requires Exact(r)
    ensures
      var r' := Perform(r, me, setup, step);
      && Exact(r')
      && Content(r.tables) <= Content(r'.tables)
      && (Saves(step) ==> Content(r'.tables) == r'.doc)
      && (!step.ResetToPersisted? ==> r.doc <= r'.doc)
  {
    match step
    case AddMessage(msg, ok) =>
      var c := NewMessage(r.doc, me, msg);
      AddKeepsExact(r, c);
      PersistIsExact(r.(doc := r.doc + {c}), ok);
    case ReceiveSync(cs, ok) =>
      ReceiveKeepsExact(r, cs);
      PersistIsExact(r.(doc := Integrate(r.doc, cs)), ok);
    case ResetToPersisted =>
      LoadKeeps(r.tables, setup);
  }

  /** After any sequence of added and received messages, failed or successful INSERTs and resets:
      the tables hold exactly what the saved heads stand for, never more than the document and never
      less than before; and if the last operation saved, they hold the whole document. */
  lemma {:induction false} LogIsExact(r: Repo, me: nat, setup: Change, steps: seq<Step>)
    requires Exact(r)
    ensures
      var r' := PerformAll(r, me, setup, steps);
      && Exact(r')
      && Content(r.tables) <= Content(r'.tables)
      && (steps != [] && Saves(steps[|steps| - 1]) ==> Content(r'.tables) == r'.doc)
  {
    if steps != [] {
      LogIsExact(r, me, setup, steps[..|steps| - 1]);
      StepIsExact(PerformAll(r, me, setup, steps[..|steps| - 1]), me, setup, steps[|steps| - 1]);
    }
  }

  // ----- the repository object

  class ChatRepository {
    const me: nat
    var doc: Changes
    var lastSavedHeads: Changes
    var snapshot: Option<Changes>
    var log: seq<Row>
    var nextRow: nat

    ghost function Stored(): Tables
      reads this
    {
      Tables(snapshot, log, nextRow)
    }

    ghost function View(): Repo
      reads this
    {
      Repo(doc, lastSavedHeads, Stored())
    }

    ghost predicate Valid()
      reads this
    {
      Exact(View())
    }

    /** `ChatRepository::new` on the tables found in the database. */
    constructor (me: nat, tables: Tables, setup: Change)
      requires Sound(tables) && setup.deps == {}
      ensures this.me == me && Valid() && View() == Load(tables, setup)
    {
      this.me := me;
      snapshot, log, nextRow := tables.snapshot, tables.log, tables.nextRow;
      doc, lastSavedHeads := {}, {};
      new;
      LoadPersisted(setup);
    }

    /** `get_persisted_doc_state`, run by one loader at a time. */
    method LoadPersisted(setup: Change)
      requires Sound(Stored()) && setup.deps == {}
      modifies this
      ensures Valid() && View() == Load(old(Stored()), setup)
      ensures doc == Content(Stored()) == if old(snapshot).Some? then Content(old(Stored())) else {setup}
      ensures log == if |old(log)| > CHAT_LOGS_LIMIT then [] else old(log)
    {
      ghost var before := Stored();
      if snapshot.Some? {
        var chunks := ReadLog();
        doc := Integrate(snapshot.value, chunks);
        if |log| > CHAT_LOGS_LIMIT {
          var maxId := log[|log| - 1].id;
          snapshot := Some(doc);
          log := RowsAbove(log, maxId);
        }
      } else {
        doc := {setup};
        snapshot := Some(doc);
      }
      lastSavedHeads := Heads(doc);
      assert View() == Load(before, setup);
      if before.snapshot.Some? {
        LoadKeeps(before, setup);
      } else {
        LoadCreates(before, setup);
      }
      LoadBoundsLog(before, setup);
    }

    method ReadLog() returns (chunks: Changes)
      ensures chunks == Logged(log)
    {
      chunks := {};
      for i := 0 to |log|
        invariant chunks == Logged(log[..i])
      {
        chunks := chunks + log[i].data;
        assert log[..i + 1][..i] == log[..i];
      }
      assert log[..|log|] == log;
    }

    method PersistChat(insertOk: bool) returns (ok: bool)
      requires Valid()
      modifies this`lastSavedHeads, this`log, this`nextRow
      ensures Valid() && View() == AfterPersist(old(View()), insertOk)
      ensures (ok <==> Content(Stored()) == doc) && (insertOk ==> ok)
      ensures
        var unsaved := doc - Content(old(Stored()));
        if unsaved != {} && insertOk then
          log == old(log) + [Row(old(nextRow), unsaved)] && nextRow == old(nextRow) + 1
        else View() == old(View())
    {
      ghost var before := View();
      var newChanges := SaveAfter(doc, lastSavedHeads);
      ok := newChanges == {} || insertOk;
      if newChanges != {} && insertOk {
        log := log + [Row(nextRow, newChanges)];
        nextRow := nextRow + 1;
        lastSavedHeads := Heads(doc);
      }
      assert View() == AfterPersist(before, insertOk);
      SaveAfterComplements(doc, Content(before.tables), before.saved);
      PersistIsExact(before, insertOk);
      NothingToSave(before);
    }

    method Add(msg: nat, insertOk: bool) returns (ok: bool, ghost added: Change)
      requires Valid()
      modifies this
      ensures Valid() && View() == AfterAdd(old(View()), me, msg, insertOk)
      ensures doc == old(doc) + {added} && Adds(old(doc), added, me, msg)
      ensures ok == insertOk && Content(Stored()) == if ok then doc else Content(old(Stored()))
    {
      ghost var before := View();
      var c := NewMessage(doc, me, msg);
      AddKeepsExact(before, c);
      added := c;
      doc := doc + {c};
      ok := PersistChat(insertOk);
      AddEffect(before, me, msg, insertOk);
    }

    /** A message the document rejects leaves it unchanged. */
    method Receive(cs: Changes, rejected: bool, insertOk: bool) returns (ok: bool)
      requires Valid()
      modifies this
      ensures Valid()
      ensures rejected ==> !ok && View() == old(View())
      ensures !rejected ==> View() == AfterReceive(old(View()), cs, insertOk)
      ensures !rejected ==> LargestPart(doc, old(doc), cs)
      ensures !rejected ==> (ok <==> Content(Stored()) == doc)
      ensures insertOk && !rejected ==> ok
    {
      if rejected {
        return false;
      }
      ReceiveKeepsExact(View(), cs);
      doc := Integrate(doc, cs);
      ok := PersistChat(insertOk);
    }

    /** A load that fails leaves everything as it was. */
    method ResetDocStateToPersisted(setup: Change, loadOk: bool) returns (ok: bool)
      requires Valid() && setup.deps == {}
      modifies this
      ensures Valid() && ok == loadOk
      ensures !ok ==> View() == old(View())
      ensures ok ==> View() == Load(old(Stored()), setup)
      ensures ok ==> doc == Content(Stored()) == Content(old(Stored()))
    {
      ok := loadOk;
      if !ok {
        return;
      }
      LoadKeeps(Stored(), setup);
      LoadPersisted(setup);
    }
  }
}

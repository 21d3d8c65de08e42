/** Loading one chat while others load and append: every query and every transaction of
    `get_persisted_doc_state` is one step, for any number of loaders, which may die after any of them,
    and the repositories that were loaded append in between at any time. */
module Loader {
  import opened Options
  import opened ChangeGraph
  import opened Store
  import opened Repository

  /** Where one call of `get_persisted_doc_state` stands; `round` counts turns of its loop. The
      document of a call that is done belongs to a repository: it is what the repository last loaded
      or saved, the one its saved heads stand for. */
  datatype Phase =
    | Fetching(round: nat)
    | Creating(round: nat, setup: Change)
    | HasSnapshot(round: nat, snap: Changes)
    | HasRows(round: nat, snap: Changes, rows: seq<Row>)
    | Done(round: nat, doc: Changes)

  /** `created` and `written` are history: the initial documents the database accepted, and all
      changes it ever accepted. */
  datatype Db = Db(tables: Tables, loaders: map<nat, Phase>, created: seq<Change>, written: Changes)

  function Empty(): Db {
    Db(Tables(None, [], 0), map[], [], {})
  }

  datatype Action =
    | Enter(l: nat)
    | ReadSnapshot(l: nat, setup: Change)   // the set-up change is used only if there is no snapshot
    | InsertInitial(l: nat)                 // INSERT OR IGNORE
    | ReadRows(l: nat)
    | Finish(l: nat)                        // apply the log; compact a long one; return
    | AppendLog(l: nat, doc: Changes)       // the INSERT of `persist_chat`, see `InsertIsExact`
    | OtherChat                             // an insert into the log of another chat
    | Abandon(l: nat)                       // a query fails, the process dies, a repository is dropped

  /** A repository appends when its document has changes that it has not saved. */
  ghost predicate Enabled(s: Db, a: Action) {
    match a
    case Enter(l) => l !in s.loaders
    case ReadSnapshot(l, setup) => l in s.loaders && s.loaders[l].Fetching? && setup.deps == {}
    case InsertInitial(l) => l in s.loaders && s.loaders[l].Creating?
    case ReadRows(l) => l in s.loaders && s.loaders[l].HasSnapshot?
    case Finish(l) => l in s.loaders && s.loaders[l].HasRows?
    case AppendLog(l, doc) =>
      l in s.loaders && s.loaders[l].Done? && s.loaders[l].doc < doc && Closed(doc)
    case OtherChat => true
    case Abandon(l) => l in s.loaders
  }

  /** The document a loader returns. */
  function Returned(ph: Phase): Changes
    requires ph.HasRows?
  {
    Integrate(ph.snap, Logged(ph.rows))
  }

  /** The rows its compaction leaves alone. */
  function Later(t: Tables, ph: Phase): seq<Row>
    requires ph.HasRows? && ph.rows != []
  {
    RowsAbove(t.log, ph.rows[|ph.rows| - 1].id)
  }

  function Compacted(t: Tables, ph: Phase): Tables
    requires ph.HasRows? && ph.rows != []
  {
    Compact(t, Returned(ph), ph.rows[|ph.rows| - 1].id)
  }

  function Finished(s: Db, l: nat, ph: Phase): Db
    requires ph.HasRows?
  {
    s.(loaders := s.loaders[l := Done(ph.round, Returned(ph))],
       tables := if |ph.rows| > CHAT_LOGS_LIMIT then Compacted(s.tables, ph) else s.tables)
  }

  function Inserted(s: Db, l: nat, ph: Phase): Db
    requires ph.Creating?
  {
    if s.tables.snapshot.None? then
      Db(s.tables.(snapshot := Some({ph.setup})), s.loaders[l := Done(ph.round, {ph.setup})],
         s.created + [ph.setup], s.written + {ph.setup})
    else s.(loaders := s.loaders[l := Fetching(ph.round + 1)])
  }

  function Appended(s: Db, l: nat, ph: Phase, doc: Changes): Db
    requires ph.Done?
  {
    Db(AppendRow(s.tables, doc - ph.doc), s.loaders[l := Done(ph.round, doc)],
       s.created, s.written + (doc - ph.doc))
  }

  function Apply(s: Db, a: Action): Db
    requires Enabled(s, a)
  {
    match a
    case Enter(l) => s.(loaders := s.loaders[l := Fetching(1)])
    case ReadSnapshot(l, setup) =>
      var round := s.loaders[l].round;
      s.(loaders := s.loaders[l :=
        if s.tables.snapshot.Some? then HasSnapshot(round, s.tables.snapshot.value)
        else Creating(round, setup)])
    case InsertInitial(l) => Inserted(s, l, s.loaders[l])
    case ReadRows(l) =>
      s.(loaders := s.loaders[l := HasRows(s.loaders[l].round, s.loaders[l].snap, s.tables.log)])
    case Finish(l) => Finished(s, l, s.loaders[l])
    case AppendLog(l, doc) => Appended(s, l, s.loaders[l], doc)
    case OtherChat => s.(tables := s.tables.(nextRow := s.tables.nextRow + 1))
    case Abandon(l) => s.(loaders := s.loaders - {l})
  }

  /** `trace` is a run: its states follow one another by `acts`. */
  ghost predicate Run(acts: seq<Action>, trace: seq<Db>) {
    && |trace| == |acts| + 1 && trace[0] == Empty()
    && forall i :: 0 <= i < |acts| ==> Enabled(trace[i], acts[i]) && trace[i + 1] == Apply(trace[i], acts[i])
  }

  // ----- the race to create the chat

  ghost predicate PhaseOk(s: Db, ph: Phase) {
    && 1 <= ph.round <= 2
    && (ph.round == 2 ==> s.created != [] && !ph.Creating?)
    && (ph.Creating? ==> ph.setup.deps == {})
    && (ph.HasSnapshot? || ph.HasRows? ==> s.created != [] && s.created[0] in ph.snap)
    && (ph.Done? ==> s.created != [] && s.created[0] in ph.doc)
  }

  ghost predicate RaceInv(s: Db) {
    && |s.created| <= 1
    && (s.tables.snapshot.None? <==> s.created == [])
    && (s.created != [] ==> s.created[0].deps == {} && s.created[0] in s.tables.snapshot.value)
    && forall l :: l in s.loaders ==> PhaseOk(s, s.loaders[l])
  }

  lemma RaceStep(s: Db, a: Action)
    requires RaceInv(s) && Enabled(s, a)
    ensures RaceInv(Apply(s, a))
  {
    if a.Finish? {
      var ph := s.loaders[a.l];
      assert PhaseOk(s, ph);
      assert Ready(ph.snap + Logged(ph.rows), s.created[0]);
    }
  }

  /** For any number of concurrent creators, and whatever happens in between: at most one initial
      document is ever stored, no call goes through its loop more than twice, and every document
      returned holds the initial change of the one that was stored. */
  lemma {:induction false} InitialDocumentRace(acts: seq<Action>, trace: seq<Db>, n: nat)
    requires Run(acts, trace) && n < |trace|
    ensures |trace[n].created| <= 1
    ensures forall l :: l in trace[n].loaders ==>
      var ph := trace[n].loaders[l];
      ph.round <= 2 && (ph.Done? ==> trace[n].created != [] && trace[n].created[0] in ph.doc)
    ensures RaceInv(trace[n])
  {
    if n > 0 {
      InitialDocumentRace(acts, trace, n - 1);
      RaceStep(trace[n - 1], acts[n - 1]);
    }
    assert forall l :: l in trace[n].loaders ==> PhaseOk(trace[n], trace[n].loaders[l]);
  }

  // ----- any number of loaders

  ghost predicate TablesOk(t: Tables) {
    && Ordered(t)
    && (t.snapshot.None? ==> t.log == [])
    && (t.snapshot.Some? ==> Closed(t.snapshot.value))
  }

  /** The rows that are left of those up to the largest id read are among the rows read. */
  ghost predicate RowsRead(t: Tables, rows: seq<Row>) {
    rows != [] ==>
      var maxId := rows[|rows| - 1].id;
      && maxId < t.nextRow
      && forall i :: 0 <= i < |t.log| && t.log[i].id <= maxId ==> t.log[i] in rows
  }

  ghost predicate PhaseKnown(t: Tables, written: Changes, ph: Phase) {
    match ph
    case Fetching(_) => true
    case Creating(_, setup) => setup.deps == {}
    case HasSnapshot(_, snap) => t.snapshot.Some? && Closed(snap) && snap <= written
    case HasRows(_, snap, rows) =>
      t.snapshot.Some? && Closed(snap) && snap <= written && Logged(rows) <= written && RowsRead(t, rows)
    case Done(_, doc) => t.snapshot.Some? && Closed(doc) && doc <= written
  }

  /** What holds whether or not anything was lost. */
  ghost predicate BaseInv(s: Db) {
    && TablesOk(s.tables) && Content(s.tables) <= s.written && Closed(s.written)
    && forall l :: l in s.loaders ==> PhaseKnown(s.tables, s.written, s.loaders[l])
  }

  lemma CompactedTables(t: Tables, ph: Phase)
    requires TablesOk(t) && ph.HasRows? && ph.rows != [] && Closed(ph.snap)
    ensures TablesOk(Compacted(t, ph))
    ensures Content(Compacted(t, ph)) == Returned(ph) + Logged(Later(t, ph))
    ensures Logged(Later(t, ph)) <= Logged(t.log)
    ensures forall row :: row in Later(t, ph) ==> row in t.log
  {
    var n := RowsAboveCut(t.log, ph.rows[|ph.rows| - 1].id);
    SuffixOrdered(t, Some(Returned(ph)), n);
    LoggedSplit(t.log, n);
    IntegrateIsLargest(ph.snap, Logged(ph.rows));
  }

  lemma CompactedKnown(t: Tables, written: Changes, ph: Phase, other: Phase)
    requires TablesOk(t) && ph.HasRows? && ph.rows != [] && Closed(ph.snap)
    requires PhaseKnown(t, written, other)
    ensures PhaseKnown(Compacted(t, ph), written, other)
  {
    CompactedTables(t, ph);
    if other.HasRows? && other.rows != [] {
      var later := Later(t, ph);
      forall i | 0 <= i < |later| && later[i].id <= other.rows[|other.rows| - 1].id
        ensures later[i] in other.rows
      {
        assert later[i] in t.log;
      }
    }
  }

  lemma FinishBase(s: Db, l: nat)
    requires BaseInv(s) && l in s.loaders && s.loaders[l].HasRows?
    ensures BaseInv(Finished(s, l, s.loaders[l]))
  {
    var ph := s.loaders[l];
    assert PhaseKnown(s.tables, s.written, ph);
    IntegrateIsLargest(ph.snap, Logged(ph.rows));
    if |ph.rows| > CHAT_LOGS_LIMIT {
      CompactedTables(s.tables, ph);
      forall m | m in s.loaders
        ensures PhaseKnown(Compacted(s.tables, ph), s.written, s.loaders[m])
      {
        CompactedKnown(s.tables, s.written, ph, s.loaders[m]);
      }
    }
  }

  lemma AppendedKnown(t: Tables, written: Changes, data: Changes, ph: Phase)
    requires PhaseKnown(t, written, ph)
    ensures PhaseKnown(AppendRow(t, data), written + data, ph)
  {
  }

  lemma AppendBase(s: Db, l: nat, doc: Changes)
    requires BaseInv(s) && Enabled(s, AppendLog(l, doc))
    ensures BaseInv(Apply(s, AppendLog(l, doc)))
    ensures Content(Apply(s, AppendLog(l, doc)).tables) == Content(s.tables) + (doc - s.loaders[l].doc)
  {
    var data := doc - s.loaders[l].doc;
    assert PhaseKnown(s.tables, s.written, s.loaders[l]);
    AppendAdds(s.tables, data);
    assert s.written + data == s.written + doc;
    forall m | m in s.loaders
      ensures PhaseKnown(AppendRow(s.tables, data), s.written + data, s.loaders[m])
    {
      AppendedKnown(s.tables, s.written, data, s.loaders[m]);
    }
  }

  lemma InsertBase(s: Db, l: nat)
    requires BaseInv(s) && l in s.loaders && s.loaders[l].Creating?
    ensures BaseInv(Inserted(s, l, s.loaders[l]))
  {
    assert PhaseKnown(s.tables, s.written, s.loaders[l]);
    assert Logged([]) == {};
  }

  lemma BaseStep(s: Db, a: Action)
    requires BaseInv(s) && Enabled(s, a)
    ensures BaseInv(Apply(s, a))
  {
    match a
    case Enter(l) =>
    case ReadSnapshot(l, setup) =>
    case InsertInitial(l) => InsertBase(s, l);
    case ReadRows(l) =>
      assert PhaseKnown(s.tables, s.written, s.loaders[l]);
    case Finish(l) => FinishBase(s, l);
    case AppendLog(l, doc) => AppendBase(s, l, doc);
    case OtherChat =>
    case Abandon(l) =>
  }

  lemma {:induction false} RunKeepsBase(acts: seq<Action>, trace: seq<Db>, n: nat)
    requires Run(acts, trace) && n < |trace|
    ensures BaseInv(trace[n])
  {
    if n > 0 {
      RunKeepsBase(acts, trace, n - 1);
      BaseStep(trace[n - 1], acts[n - 1]);
    }
  }

  // ----- exactly when a compaction loses something

  /** The step is a `Finish` that compacts. */
  ghost predicate Compacts(s: Db, a: Action) {
    a.Finish? && Enabled(s, a) && |s.loaders[a.l].rows| > CHAT_LOGS_LIMIT
  }

  /** The loader has read every change of the snapshot it is about to overwrite, except those that
      stand in a row it leaves alone. */
  ghost predicate Covered(t: Tables, ph: Phase)
    requires ph.HasRows? && ph.rows != [] && t.snapshot.Some?
  {
    t.snapshot.value <= ph.snap + Logged(ph.rows) + Logged(Later(t, ph))
  }

  /** No change that it has read and could not apply, since a part of its history was missing, is
      still in the tables, except in a row it leaves alone. */
  ghost predicate NoneStranded(t: Tables, ph: Phase)
    requires ph.HasRows? && ph.rows != []
  {
    forall c :: c in Content(t) && c in ph.snap + Logged(ph.rows) && c !in Returned(ph)
                ==> c in Logged(Later(t, ph))
  }

  lemma CompactionKeepsIff(t: Tables, ph: Phase)
    requires TablesOk(t) && t.snapshot.Some? && ph.HasRows? && ph.rows != []
    requires Closed(ph.snap) && RowsRead(t, ph.rows)
    ensures Content(t) <= Content(Compacted(t, ph)) <==> Covered(t, ph) && NoneStranded(t, ph)
    ensures Closed(ph.snap + Logged(ph.rows)) ==> NoneStranded(t, ph)
  {
    CompactedTables(t, ph);
    IntegrateIsLargest(ph.snap, Logged(ph.rows));
    forall c | c in Logged(t.log)
      ensures c in Logged(ph.rows) + Logged(Later(t, ph))
    {
      LoggedReadOrLater(t, ph, c);
    }
  }

  lemma LoggedReadOrLater(t: Tables, ph: Phase, c: Change)
    requires Ordered(t) && ph.HasRows? && ph.rows != [] && RowsRead(t, ph.rows) && c in Logged(t.log)
    ensures c in Logged(ph.rows) || c in Logged(Later(t, ph))
  {
    var n := RowsAboveCut(t.log, ph.rows[|ph.rows| - 1].id);
    var i := LoggedRow(t.log, c);
    if i < n {
      RowLogged(ph.rows, t.log[i], c);
    } else {
      assert t.log[n..][i - n] == t.log[i];
      RowLogged(t.log[n..], t.log[i], c);
    }
  }

  /** In every run with any number of loaders, and whatever was lost before: a step loses something
      from the tables exactly if it is a compaction by a loader that has not read all of the snapshot
      it overwrites, or has read something it could not apply; the first alone decides where all that
      it read could be applied. */
  lemma StepLosesIff(acts: seq<Action>, trace: seq<Db>, i: nat)
    requires Run(acts, trace) && i < |acts|
    ensures BaseInv(trace[i])
    ensures Content(trace[i].tables) <= Content(trace[i + 1].tables) <==>
      (Compacts(trace[i], acts[i]) ==>
        var t, ph := trace[i].tables, trace[i].loaders[acts[i].l];
        t.snapshot.Some? && Covered(t, ph) && NoneStranded(t, ph))
    ensures Compacts(trace[i], acts[i]) ==>
      var t, ph := trace[i].tables, trace[i].loaders[acts[i].l];
      && t.snapshot.Some?
      && (Closed(ph.snap + Logged(ph.rows)) ==>
           (Content(t) <= Content(trace[i + 1].tables) <==> Covered(t, ph)))
  {
    RunKeepsBase(acts, trace, i);
    var s, a := trace[i], acts[i];
    if Compacts(s, a) {
      assert PhaseKnown(s.tables, s.written, s.loaders[a.l]);
      CompactionKeepsIff(s.tables, s.loaders[a.l]);
    } else if a.AppendLog? {
      AppendBase(s, a.l, a.doc);
    }
  }

  ghost predicate LosesNothing(trace: seq<Db>, n: nat)
    requires n < |trace|
  {
    forall i :: 0 <= i <= n ==> Content(trace[i].tables) == trace[i].written
  }

  /** Every compaction of the run meets the condition. */
  ghost predicate CompactsSafely(acts: seq<Action>, trace: seq<Db>, n: nat)
    requires Run(acts, trace) && n <= |acts|
  {
    forall i :: 0 <= i < n && Compacts(trace[i], acts[i]) ==>
      var t, ph := trace[i].tables, trace[i].loaders[acts[i].l];
      t.snapshot.Some? && Covered(t, ph) && NoneStranded(t, ph)
  }

  lemma WrittenStep(s: Db, a: Action)
    requires BaseInv(s) && Enabled(s, a) && Content(s.tables) == s.written
    ensures
      var s' := Apply(s, a);
      Content(s'.tables) == s'.written <==> Content(s.tables) <= Content(s'.tables)
  {
    BaseStep(s, a);
    match a
    case InsertInitial(l) =>
      assert Logged([]) == {};
    case AppendLog(l, doc) => AppendBase(s, l, doc);
    case _ =>
  }

  /** With any number of loaders, the tables hold all that was ever written, at every moment of a run,
      exactly if every compaction in it meets the condition. */
  lemma {:induction false} RunLosesNothingIff(acts: seq<Action>, trace: seq<Db>, n: nat)
    requires Run(acts, trace) && n <= |acts|
    ensures LosesNothing(trace, n) <==> CompactsSafely(acts, trace, n)
  {
    if n > 0 {
      RunLosesNothingIff(acts, trace, n - 1);
      StepLosesIff(acts, trace, n - 1);
      if LosesNothing(trace, n - 1) {
        assert Content(trace[n - 1].tables) == trace[n - 1].written;
        WrittenStep(trace[n - 1], acts[n - 1]);
      }
      assert LosesNothing(trace, n) <==>
        LosesNothing(trace, n - 1) && Content(trace[n].tables) == trace[n].written;
    } else {
      assert Logged([]) == {};
    }
  }

  /** What a load returns, with any number of loaders: all that the tables hold when it reads the log,
      exactly if what it has read is closed and includes the snapshot of that moment; and, as long as
      nothing was lost, all that was ever written, exactly if it includes that snapshot. */
  lemma LoadIsCompleteIff(acts: seq<Action>, trace: seq<Db>, i: nat)
    requires Run(acts, trace) && i < |acts| && acts[i].ReadRows?
    ensures trace[i + 1].loaders[acts[i].l].HasRows? && trace[i].tables.snapshot.Some?
    ensures
      var s, ph := trace[i], trace[i + 1].loaders[acts[i].l];
      var read := ph.snap + Logged(ph.rows);
      && (Content(s.tables) <= Returned(ph) <==> Closed(read) && s.tables.snapshot.value <= read)
      && (Content(s.tables) == s.written ==>
           (Returned(ph) == s.written <==> s.tables.snapshot.value <= read))
  {
    RunKeepsBase(acts, trace, i);
    var s, ph := trace[i], trace[i + 1].loaders[acts[i].l];
    assert PhaseKnown(s.tables, s.written, s.loaders[acts[i].l]);
    ReadIsComplete(s.tables, s.written, ph.snap);
  }

  lemma ReadIsComplete(t: Tables, written: Changes, snap: Changes)
    requires t.snapshot.Some? && Closed(snap) && Closed(written)
    requires snap <= written && Content(t) <= written
    ensures
      var read := snap + Logged(t.log);
      var doc := Integrate(snap, Logged(t.log));
      && (Content(t) <= doc <==> Closed(read) && t.snapshot.value <= read)
      && (Content(t) == written ==> (doc == written <==> t.snapshot.value <= read))
  {
    var read := snap + Logged(t.log);
    IntegrateIsLargest(snap, Logged(t.log));
    if Content(t) <= Integrate(snap, Logged(t.log)) {
      assert read == Integrate(snap, Logged(t.log));
    }
    if Content(t) == written && t.snapshot.value <= read {
      assert read == written;
    }
  }

  // ----- when no compaction comes in between

  /** A loader that may still compact, or has still to read the log. */
  ghost predicate Reading(s: Db, l: nat) {
    l in s.loaders
    && (s.loaders[l].HasSnapshot? || (s.loaders[l].HasRows? && |s.loaders[l].rows| > CHAT_LOGS_LIMIT))
  }

  /** Whenever a loader compacts, no other is reading. */
  ghost predicate Undisturbed(acts: seq<Action>, trace: seq<Db>)
    requires Run(acts, trace)
  {
    forall i, l :: 0 <= i < |acts| && Compacts(trace[i], acts[i]) && Reading(trace[i], l) ==> l == acts[i].l
  }

  /** What a loader has read is still what the tables hold, up to rows appended since. */
  ghost predicate ReadOk(t: Tables, ph: Phase) {
    && (ph.HasSnapshot? || ph.HasRows? ==> t.snapshot == Some(ph.snap))
    && (ph.HasRows? ==> ph.rows <= t.log && Closed(ph.snap + Logged(ph.rows)))
  }

  ghost predicate KeepInv(s: Db) {
    && BaseInv(s) && Content(s.tables) == s.written
    && forall l :: Reading(s, l) ==> ReadOk(s.tables, s.loaders[l])
  }

  lemma FinishKeeps(s: Db, l: nat)
    requires KeepInv(s) && Compacts(s, Finish(l))
    ensures
      var ph := s.loaders[l];
      s.tables.snapshot == Some(ph.snap) && Covered(s.tables, ph) && NoneStranded(s.tables, ph)
  {
    var ph := s.loaders[l];
    assert Reading(s, l) && PhaseKnown(s.tables, s.written, ph);
    CompactionKeepsIff(s.tables, ph);
  }

  lemma ReadingStays(s: Db, s': Db)
    requires KeepInv(s) && BaseInv(s') && Content(s'.tables) == s'.written
    requires s'.tables.snapshot == s.tables.snapshot && s.tables.log <= s'.tables.log
    requires forall l :: Reading(s', l) ==>
      (Reading(s, l) && s'.loaders[l] == s.loaders[l]) || ReadOk(s'.tables, s'.loaders[l])
    ensures KeepInv(s')
  {
  }

  lemma FinishStep(s: Db, l: nat)
    requires KeepInv(s) && Enabled(s, Finish(l))
    requires Compacts(s, Finish(l)) ==> forall m :: Reading(s, m) ==> m == l
    ensures KeepInv(Apply(s, Finish(l)))
  {
    var s' := Apply(s, Finish(l));
    BaseStep(s, Finish(l));
    WrittenStep(s, Finish(l));
    assert forall m :: Reading(s', m) ==> Reading(s, m) && m != l && s'.loaders[m] == s.loaders[m];
    if Compacts(s, Finish(l)) {
      assert PhaseKnown(s.tables, s.written, s.loaders[l]);
      FinishKeeps(s, l);
      CompactionKeepsIff(s.tables, s.loaders[l]);
    }
  }

  lemma KeepStep(s: Db, a: Action)
    requires KeepInv(s) && Enabled(s, a)
    requires Compacts(s, a) ==> forall l :: Reading(s, l) ==> l == a.l
    ensures KeepInv(Apply(s, a))
  {
    if a.Finish? {
      FinishStep(s, a.l);
    } else if a.InsertInitial? && s.tables.snapshot.None? {
      assert forall m :: m in s.loaders ==> PhaseKnown(s.tables, s.written, s.loaders[m]);
      assert forall m :: !Reading(Apply(s, a), m);
      BaseStep(s, a);
      WrittenStep(s, a);
      assert Logged([]) == {};
    } else {
      BaseStep(s, a);
      StepAdds(s, a);
      if a.ReadRows? {
        assert Reading(s, a.l);
      }
      ReadingStays(s, Apply(s, a));
    }
  }

  lemma StepAdds(s: Db, a: Action)
    requires BaseInv(s) && Enabled(s, a) && Content(s.tables) == s.written
    requires !a.Finish? && (a.InsertInitial? ==> s.tables.snapshot.Some?)
    ensures Content(Apply(s, a).tables) == Apply(s, a).written
  {
    if a.AppendLog? {
      AppendBase(s, a.l, a.doc);
    }
  }

  /** Any number of loaders may read at once. As long as none of them is reading when another one
      compacts, any load, append and compaction cycles lose nothing: snapshot and log hold exactly
      what was ever written, and a load that returns has everything that was written before it read
      the log. */
  lemma {:induction false} CompactionLosesNothing(acts: seq<Action>, trace: seq<Db>, n: nat)
    requires Run(acts, trace) && Undisturbed(acts, trace) && n < |trace|
    ensures Content(trace[n].tables) == trace[n].written
    ensures forall i :: 0 <= i < n && acts[i].ReadRows? ==>
      var ph := trace[i + 1].loaders[acts[i].l];
      ph.HasRows? && Returned(ph) == trace[i].written
    ensures KeepInv(trace[n])
  {
    if n > 0 {
      CompactionLosesNothing(acts, trace, n - 1);
      KeepStep(trace[n - 1], acts[n - 1]);
      if acts[n - 1].ReadRows? {
        assert Reading(trace[n - 1], acts[n - 1].l);
        LoadIsCompleteIff(acts, trace, n - 1);
      }
    } else {
      assert Logged([]) == {};
    }
  }

  /** The step is one of loader `l`. */
  ghost predicate Of(a: Action, l: nat) {
    match a
    case OtherChat => false
    case Enter(m) => m == l
    case ReadSnapshot(m, _) => m == l
    case InsertInitial(m) => m == l
    case ReadRows(m) => m == l
    case Finish(m) => m == l
    case AppendLog(m, _) => m == l
    case Abandon(m) => m == l
  }

  lemma {:induction false} PhaseStays(acts: seq<Action>, trace: seq<Db>, i: nat, j: nat, l: nat)
    requires Run(acts, trace) && i <= j <= |acts| && forall k :: i <= k < j ==> !Of(acts[k], l)
    ensures l in trace[j].loaders <==> l in trace[i].loaders
    ensures l in trace[i].loaders ==> trace[j].loaders[l] == trace[i].loaders[l]
  {
    if i < j {
      PhaseStays(acts, trace, i, j - 1, l);
    }
  }

  /** What a load returns is what it read: with no compaction in between its reads, the document its
      repository starts with is exactly what had been written when it read the log. */
  lemma LoadReturns(acts: seq<Action>, trace: seq<Db>, i: nat, j: nat, l: nat)
    requires Run(acts, trace) && Undisturbed(acts, trace) && i < j < |acts|
    requires acts[i] == ReadRows(l) && acts[j] == Finish(l) && forall k :: i < k < j ==> !Of(acts[k], l)
    ensures l in trace[j + 1].loaders && trace[j + 1].loaders[l].Done?
    ensures trace[j + 1].loaders[l].doc == trace[i].written
  {
    CompactionLosesNothing(acts, trace, i + 1);
    PhaseStays(acts, trace, i + 1, j, l);
  }

  ghost predicate Active(s: Db, l: nat) {
    l in s.loaders && !s.loaders[l].Done?
  }

  /** One loader at a time, as the actors of the application provide. */
  ghost predicate Exclusive(acts: seq<Action>, trace: seq<Db>)
    requires Run(acts, trace)
  {
    forall i :: 0 <= i < |acts| && acts[i].Enter? ==> forall l :: !Active(trace[i], l)
  }

  lemma {:induction false} OneActive(acts: seq<Action>, trace: seq<Db>, n: nat)
    requires Run(acts, trace) && Exclusive(acts, trace) && n < |trace|
    ensures forall l, m :: Active(trace[n], l) && Active(trace[n], m) ==> l == m
  {
    if n > 0 {
      OneActive(acts, trace, n - 1);
      assert forall l :: Active(trace[n], l) ==> Active(trace[n - 1], l) || acts[n - 1] == Enter(l);
    }
  }

  /** One loader at a time is never disturbed. */
  lemma ExclusiveIsUndisturbed(acts: seq<Action>, trace: seq<Db>)
    requires Run(acts, trace) && Exclusive(acts, trace)
    ensures Undisturbed(acts, trace)
  {
    forall i, l | 0 <= i < |acts| && Compacts(trace[i], acts[i]) && Reading(trace[i], l)
      ensures l == acts[i].l
    {
      OneActive(acts, trace, i);
      assert Active(trace[i], l) && Active(trace[i], acts[i].l);
    }
  }

  // ----- a run that loses changes

  lemma Follow(acts: seq<Action>, trace: seq<Db>, a: Action) returns (acts': seq<Action>, trace': seq<Db>)
    requires Run(acts, trace) && Enabled(trace[|acts|], a)
    ensures Run(acts', trace') && |acts'| == |acts| + 1
    ensures trace'[|acts'|] == Apply(trace[|acts|], a)
  {
    acts', trace' := acts + [a], trace + [Apply(trace[|acts|], a)];
  }

  /** What `n` messages added and saved by the repository of `l` make of a state. */
  ghost predicate Grown(s: Db, s': Db, l: nat, n: nat) {
    && l in s.loaders && s.loaders[l].Done? && l in s'.loaders && s'.loaders[l].Done?
    && s'.loaders == s.loaders[l := s'.loaders[l]] && s'.tables.snapshot == s.tables.snapshot
    && |s'.tables.log| == |s.tables.log| + n && Ordered(s'.tables)
    && s.loaders[l].doc <= s'.loaders[l].doc && Closed(s'.loaders[l].doc)
    && Logged(s'.tables.log) == Logged(s.tables.log) + (s'.loaders[l].doc - s.loaders[l].doc)
    && s'.written == s.written + (s'.loaders[l].doc - s.loaders[l].doc)
    && (n > 0 ==> s.loaders[l].doc < s'.loaders[l].doc)
  }

  lemma GrownBy(s0: Db, s: Db, l: nat, n: nat, doc: Changes)
    requires Grown(s0, s, l, n) && s.loaders[l].doc < doc && Closed(doc)
    ensures Grown(s0, Apply(s, AppendLog(l, doc)), l, n + 1)
  {
    AppendAdds(s.tables, doc - s.loaders[l].doc);
  }

  lemma OneMore(doc: Changes, c: Change)
    requires Closed(doc) && c.deps == Heads(doc)
    ensures doc < doc + {c} && Closed(doc + {c})
  {
    OnTop(doc, c);
    assert c in doc + {c};
  }

  /** The repository of `l` adds and saves `n` messages, each on top of the one before. */
  lemma AddMany(acts: seq<Action>, trace: seq<Db>, l: nat, n: nat)
    returns (acts': seq<Action>, trace': seq<Db>)
    requires Run(acts, trace) && Grown(trace[|acts|], trace[|acts|], l, 0)
    ensures Run(acts', trace') && Grown(trace[|acts|], trace'[|acts'|], l, n)
  {
    acts', trace' := acts, trace;
    for i := 0 to n
      invariant Run(acts', trace') && Grown(trace[|acts|], trace'[|acts'|], l, i)
    {
      var s := trace'[|acts'|];
      var doc := s.loaders[l].doc;
      var c := NewMessage(doc, l, i);
      OneMore(doc, c);
      GrownBy(trace[|acts|], s, l, i, doc + {c});
      acts', trace' := Follow(acts', trace', AppendLog(l, doc + {c}));
    }
  }

  /** A loader that has read a snapshot goes on and compacts a long log. */
  lemma CompactWith(acts: seq<Action>, trace: seq<Db>, l: nat)
    returns (acts': seq<Action>, trace': seq<Db>)
    requires Run(acts, trace) && l in trace[|acts|].loaders && trace[|acts|].loaders[l].HasSnapshot?
    requires Ordered(trace[|acts|].tables) && |trace[|acts|].tables.log| > CHAT_LOGS_LIMIT
    ensures Run(acts', trace')
    ensures
      var s, s' := trace[|acts|], trace'[|acts'|];
      var doc := Integrate(s.loaders[l].snap, Logged(s.tables.log));
      && s'.tables == Tables(Some(doc), [], s.tables.nextRow) && s'.written == s.written
      && s'.loaders == s.loaders[l := Done(s.loaders[l].round, doc)]
  {
    var s := trace[|acts|];
    acts', trace' := Follow(acts, trace, ReadRows(l));
    acts', trace' := Follow(acts', trace', Finish(l));
    RowsAboveIsSuffix(s.tables.log, |s.tables.log|);
  }

  function Start(): Change {
    Change(0, Setup, {})
  }

  /** The chat exists, repository 0 has its document, and loader 1 has read its snapshot. */
  lemma FirstLoader() returns (acts: seq<Action>, trace: seq<Db>)
    ensures Run(acts, trace)
    ensures
      var s := trace[|acts|];
      && s.tables == Tables(Some({Start()}), [], 0) && s.written == {Start()}
      && s.loaders == map[0 := Done(1, {Start()}), 1 := HasSnapshot(1, {Start()})]
  {
    acts, trace := [], [Empty()];
    acts, trace := Follow(acts, trace, Enter(0));
    acts, trace := Follow(acts, trace, ReadSnapshot(0, Start()));
    acts, trace := Follow(acts, trace, InsertInitial(0));
    acts, trace := Follow(acts, trace, Enter(1));
    acts, trace := Follow(acts, trace, ReadSnapshot(1, Start()));
  }

  /** With two loaders at once, compaction can lose changes: one loader still has the snapshot it
      read before the other one compacted, and compacts on top of it. What is lost here was never read
      by the loader that overwrites it. */
  lemma TwoLoadersLose() returns (acts: seq<Action>, trace: seq<Db>)
    ensures Run(acts, trace) && exists c :: c in trace[|acts|].written && c !in Content(trace[|acts|].tables)
  {
    acts, trace := FirstLoader();
    assert Logged([]) == {};
    acts, trace := AddMany(acts, trace, 0, CHAT_LOGS_LIMIT + 1);
    var first := trace[|acts|].loaders[0].doc;
    var x :| x in first - {Start()};
    acts, trace := Follow(acts, trace, Enter(2));
    acts, trace := Follow(acts, trace, ReadSnapshot(2, Start()));
    acts, trace := CompactWith(acts, trace, 2);
    acts, trace := AddMany(acts, trace, 0, CHAT_LOGS_LIMIT + 1);
    acts, trace := CompactWith(acts, trace, 1);
    assert x in trace[|acts|].written && x !in Content(trace[|acts|].tables);
  }
}

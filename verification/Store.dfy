/** The tables of one chat: a snapshot in `chats` and a log of increments in `chat_log`. */
module Store {
  import opened Options
  import opened ChangeGraph

  const CHAT_LOGS_LIMIT: nat := 512

  datatype Row = Row(id: nat, data: Changes)

  /** The rows of the log are in the order of their ids, which the database never reuses. */
  datatype Tables = Tables(snapshot: Option<Changes>, log: seq<Row>, nextRow: nat)

  function Logged(log: seq<Row>): Changes {
    if log == [] then {} else Logged(log[..|log| - 1]) + log[|log| - 1].data
  }

  /** Everything the tables hold. */
  function Content(t: Tables): Changes {
    (if t.snapshot.Some? then t.snapshot.value else {}) + Logged(t.log)
  }

  ghost predicate Ordered(t: Tables) {
    && (forall i :: 0 <= i < |t.log| ==> t.log[i].id < t.nextRow)
    && (forall i, j :: 0 <= i < j < |t.log| ==> t.log[i].id < t.log[j].id)
  }

  /** Tables as a repository leaves them. */
  ghost predicate Sound(t: Tables) {
    && Ordered(t) && Closed(Content(t))
    && (t.snapshot.None? ==> t.log == [])
    && (t.snapshot.Some? ==> Closed(t.snapshot.value))
  }

  /** `INSERT INTO chat_log`. */
  function AppendRow(t: Tables, data: Changes): Tables {
    t.(log := t.log + [Row(t.nextRow, data)], nextRow := t.nextRow + 1)
  }

  /** `DELETE FROM chat_log WHERE id <= maxId`. */
  function RowsAbove(log: seq<Row>, maxId: nat): seq<Row> {
    if log == [] then []
    else
      var rest := RowsAbove(log[..|log| - 1], maxId);
      if log[|log| - 1].id > maxId then rest + [log[|log| - 1]] else rest
  }

  /** The compaction transaction. */
  function Compact(t: Tables, doc: Changes, maxId: nat): Tables {
    t.(snapshot := Some(doc), log := RowsAbove(t.log, maxId))
  }

  lemma AppendAdds(t: Tables, data: Changes)
    ensures Logged(AppendRow(t, data).log) == Logged(t.log) + data
    ensures Content(AppendRow(t, data)) == Content(t) + data
    ensures Ordered(t) ==> Ordered(AppendRow(t, data))
  {
    assert AppendRow(t, data).log[..|t.log|] == t.log;
  }

  lemma {:induction false} LoggedConcat(a: seq<Row>, b: seq<Row>)
    ensures Logged(a + b) == Logged(a) + Logged(b)
  {
    if b == [] {
      assert a + b == a;
    } else {
      LoggedConcat(a, b[..|b| - 1]);
      assert (a + b)[..|a + b| - 1] == a + b[..|b| - 1];
    }
  }

  /** Deleting up to the largest id read removes exactly the rows read. */
  lemma {:induction false} RowsAboveIsSuffix(log: seq<Row>, n: nat)
    requires 0 < n <= |log|
    requires forall i, j :: 0 <= i < j < |log| ==> log[i].id < log[j].id
    ensures RowsAbove(log, log[n - 1].id) == log[n..]
  {
    var m := log[n - 1].id;
    if |log| == n {
      NothingAbove(log, m);
    } else {
      var shorter := log[..|log| - 1];
      RowsAboveIsSuffix(shorter, n);
      assert log[n..] == shorter[n..] + [log[|log| - 1]];
    }
  }

  /** What a deletion up to any id leaves is the end of the log. */
  lemma {:induction false} RowsAboveCut(log: seq<Row>, maxId: nat) returns (n: nat)
    requires forall i, j :: 0 <= i < j < |log| ==> log[i].id < log[j].id
    ensures n <= |log| && RowsAbove(log, maxId) == log[n..]
    ensures forall i :: 0 <= i < |log| ==> (log[i].id <= maxId <==> i < n)
  {
    if log == [] || log[|log| - 1].id <= maxId {
      n := |log|;
      NothingAbove(log, maxId);
    } else {
      var shorter := log[..|log| - 1];
      n := RowsAboveCut(shorter, maxId);
      assert log[n..] == shorter[n..] + [log[|log| - 1]];
      forall i | 0 <= i < |log|
        ensures log[i].id <= maxId <==> i < n
      {
        assert i < |shorter| ==> log[i] == shorter[i];
      }
    }
  }

  /** A change is logged exactly if some row has it. */
  lemma {:induction false} LoggedRow(log: seq<Row>, c: Change) returns (i: nat)
    requires c in Logged(log)
    ensures i < |log| && c in log[i].data
  {
    if c in log[|log| - 1].data {
      i := |log| - 1;
    } else {
      i := LoggedRow(log[..|log| - 1], c);
    }
  }

  lemma {:induction false} RowLogged(log: seq<Row>, row: Row, c: Change)
    requires row in log && c in row.data
    ensures c in Logged(log)
  {
    if row != log[|log| - 1] {
      assert row in log[..|log| - 1];
      RowLogged(log[..|log| - 1], row, c);
    }
  }

  lemma {:induction false} NothingAbove(log: seq<Row>, maxId: nat)
    requires forall i :: 0 <= i < |log| ==> log[i].id <= maxId
    ensures RowsAbove(log, maxId) == []
  {
    if log != [] {
      NothingAbove(log[..|log| - 1], maxId);
    }
  }

  lemma SuffixOrdered(t: Tables, snap: Option<Changes>, n: nat)
    requires Ordered(t) && n <= |t.log|
    ensures Ordered(Tables(snap, t.log[n..], t.nextRow))
  {
    assert forall i :: 0 <= i < |t.log[n..]| ==> t.log[n..][i] == t.log[n + i];
  }

  /** Compaction that read the first `n` rows, and a snapshot that is still the current one, keeps
      the content, whatever rows were appended after the read. */
  lemma CompactionKeepsContent(t: Tables, n: nat)
    requires Ordered(t) && t.snapshot.Some? && 0 < n <= |t.log|
    ensures
      var doc := t.snapshot.value + Logged(t.log[..n]);
      var t' := Compact(t, doc, t.log[n - 1].id);
      t'.log == t.log[n..] && Content(t') == Content(t) && Ordered(t')
  {
    var doc := t.snapshot.value + Logged(t.log[..n]);
    RowsAboveIsSuffix(t.log, n);
    SuffixOrdered(t, Some(doc), n);
    LoggedSplit(t.log, n);
  }

  lemma LoggedSplit(log: seq<Row>, n: nat)
    requires n <= |log|
    ensures Logged(log) == Logged(log[..n]) + Logged(log[n..])
  {
    LoggedConcat(log[..n], log[n..]);
    assert log[..n] + log[n..] == log;
  }
}

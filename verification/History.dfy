/** One history for one set of messages: what a repository returns, and what a receiver of message
    batches builds up. */
module History {
  import opened Ordering
  import opened Pagination

  ghost predicate SameMessages(a: seq<Message>, b: seq<Message>) {
    forall m :: m in a <==> m in b
  }

  /** Ids identify messages. */
  ghost predicate Identified(ms: seq<Message>) {
    forall m, n :: m in ms && n in ms && m.id == n.id ==> m == n
  }

  /** In order by time and id, no message twice. */
  ghost predicate Canonical(ms: seq<Message>) {
    Sorted(KeysOf(ms, true)) && DistinctIds(ms)
  }

  lemma CanonicalTail(ms: seq<Message>)
    requires Canonical(ms) && ms != []
    ensures Canonical(ms[1..]) && ms[0] !in ms[1..]
    ensures forall m :: m in ms ==> Leq(KeyOf(ms[0], true), KeyOf(m, true))
    ensures forall m :: m in ms[1..] <==> m in ms && m != ms[0]
  {
    assert KeysOf(ms, true)[1..] == KeysOf(ms[1..], true);
    forall i | 0 <= i < |ms|
      ensures Leq(KeyOf(ms[0], true), KeyOf(ms[i], true))
    {
      assert KeysOf(ms, true)[0] == KeyOf(ms[0], true) && KeysOf(ms, true)[i] == KeyOf(ms[i], true);
    }
    assert ms == [ms[0]] + ms[1..];
  }

  lemma SomeMember(ms: seq<Message>)
    ensures ms != [] <==> exists m :: m in ms
  {
    if ms != [] {
      assert ms[0] in ms;
    }
  }

  lemma SameHead(a: seq<Message>, b: seq<Message>)
    requires Canonical(a) && Canonical(b) && SameMessages(a, b) && Identified(a) && a != []
    ensures b != [] && a[0] == b[0]
  {
    assert a[0] in a && a[0] in b;
    assert b[0] in b && b[0] in a;
    CanonicalTail(a);
    CanonicalTail(b);
  }

  lemma SameTail(a: seq<Message>, b: seq<Message>)
    requires Canonical(a) && Canonical(b) && SameMessages(a, b) && Identified(a) && a != [] && b != []
    requires a[0] == b[0]
    ensures Canonical(a[1..]) && Canonical(b[1..]) && SameMessages(a[1..], b[1..]) && Identified(a[1..])
  {
    CanonicalTail(a);
    CanonicalTail(b);
  }

  /** A canonical sequence is determined by the set of its messages. */
  lemma {:induction false} CanonicalIsUnique(a: seq<Message>, b: seq<Message>)
    requires Canonical(a) && Canonical(b) && SameMessages(a, b) && Identified(a)
    ensures a == b
  {
    if a == [] {
      SomeMember(b);
    } else {
      SameHead(a, b);
      SameTail(a, b);
      CanonicalIsUnique(a[1..], b[1..]);
      assert a == [a[0]] + a[1..] && b == [b[0]] + b[1..];
    }
  }

  lemma SortKeepsMessages(ms: seq<Message>)
    ensures SameMessages(SortMessages(ms), ms)
  {
    SortPermutes(ms);
    forall m
      ensures m in SortMessages(ms) <==> m in ms
    {
      assert m in SortMessages(ms) <==> m in multiset(SortMessages(ms));
      assert m in ms <==> m in multiset(ms);
    }
  }

  lemma SortIsCanonical(ms: seq<Message>)
    requires DistinctIds(ms)
    ensures Canonical(SortMessages(ms))
  {
    SortedKeys(ms, true);
    InsertAllSorts(KeysOf(ms, true), []);
    SortKeepsIds(ms);
  }

  /** Replicas that hold the same messages return the same history, however the messages are spread
      over lists and ordered inside them. */
  lemma HistoryIsCanonical(a: seq<seq<Message>>, b: seq<seq<Message>>)
    requires DistinctIds(Flatten(a)) && DistinctIds(Flatten(b)) && SameMessages(Flatten(a), Flatten(b))
    requires |Flatten(a)| <= USIZE_LIMIT - 2 && |Flatten(b)| <= USIZE_LIMIT - 2
    ensures Page(a, 0, USIZE_LIMIT - 2) == Page(b, 0, USIZE_LIMIT - 2)
  {
    AllMessages(a);
    AllMessages(b);
    SortIsCanonical(Flatten(a));
    SortIsCanonical(Flatten(b));
    SortKeepsMessages(Flatten(a));
    SortKeepsMessages(Flatten(b));
    DistinctIdentifies(SortMessages(Flatten(a)));
    CanonicalIsUnique(SortMessages(Flatten(a)), SortMessages(Flatten(b)));
  }

  lemma DistinctIdentifies(ms: seq<Message>)
    requires DistinctIds(ms)
    ensures Identified(ms)
  {
    forall m, n | m in ms && n in ms && m.id == n.id
      ensures m == n
    {
      var i :| 0 <= i < |ms| && ms[i] == m;
      var j :| 0 <= j < |ms| && ms[j] == n;
    }
  }

  // ----- the receiver

  predicate Knows(all: seq<Message>, id: nat) {
    exists i :: 0 <= i < |all| && all[i].id == id
  }

  /** The messages of a batch whose ids are new, after the ones already there. */
  function AddNew(all: seq<Message>, batch: seq<Message>): seq<Message> {
    if batch == [] then all
    else
      var so := AddNew(all, batch[..|batch| - 1]);
      var m := batch[|batch| - 1];
      if Knows(so, m.id) then so else so + [m]
  }

  function AfterBatch(all: seq<Message>, batch: seq<Message>): seq<Message> {
    SortMessages(AddNew(all, batch))
  }

  function AfterBatches(batches: seq<seq<Message>>): seq<Message> {
    if batches == [] then [] else AfterBatch(AfterBatches(batches[..|batches| - 1]), batches[|batches| - 1])
  }

  lemma {:induction false} AddNewHolds(all: seq<Message>, batch: seq<Message>)
    ensures all <= AddNew(all, batch)
    ensures forall m :: m in AddNew(all, batch) ==> m in all || m in batch
    ensures forall m :: m in batch ==> Knows(AddNew(all, batch), m.id)
    ensures DistinctIds(all) ==> DistinctIds(AddNew(all, batch))
  {
    if batch != [] {
      var shorter, last := batch[..|batch| - 1], batch[|batch| - 1];
      assert batch == shorter + [last];
      AddNewHolds(all, shorter);
      var so, r := AddNew(all, shorter), AddNew(all, batch);
      assert so <= r;
      forall m | m in batch
        ensures Knows(r, m.id)
      {
        if m in shorter {
          var i :| 0 <= i < |so| && so[i].id == m.id;
          assert r[i].id == m.id;
        } else if !Knows(so, last.id) {
          assert r[|so|].id == m.id;
        }
      }
    }
  }

  lemma BatchIsTaken(all: seq<Message>, batch: seq<Message>)
    ensures
      var r := AfterBatch(all, batch);
      && Chronological(r) && (forall m :: m in r ==> m in all || m in batch) && (forall m :: m in all ==> m in r)
      && (forall m :: m in batch ==> exists i :: 0 <= i < |r| && r[i].id == m.id)
      && (DistinctIds(all) ==> DistinctIds(r))
  {
    var so, r := AddNew(all, batch), AfterBatch(all, batch);
    AddNewHolds(all, batch);
    SortIsChronological(so);
    SortKeepsMessages(so);
    if DistinctIds(all) {
      SortKeepsIds(so);
    }
    forall m | m in batch
      ensures exists i :: 0 <= i < |r| && r[i].id == m.id
    {
      var i :| 0 <= i < |so| && so[i].id == m.id;
      assert so[i] in so && so[i] in r;
      var k :| 0 <= k < |r| && r[k] == so[i];
    }
  }

  class Receiver {
    var all: seq<Message>

    constructor ()
      ensures all == []
    {
      all := [];
    }

    method ProcessMessages(batch: seq<Message>)
      modifies this
      ensures all == AfterBatch(old(all), batch)
      ensures Chronological(all)
      ensures forall m :: m in all ==> m in old(all) || m in batch
      ensures forall m :: m in old(all) ==> m in all
      ensures forall m :: m in batch ==> exists i :: 0 <= i < |all| && all[i].id == m.id
      ensures DistinctIds(old(all)) ==> DistinctIds(all)
    {
      for k := 0 to |batch|
        invariant all == AddNew(old(all), batch[..k])
      {
        var m := batch[k];
        if !Knows(all, m.id) {
          all := all + [m];
        }
        assert batch[..k + 1][..k] == batch[..k];
      }
      assert batch[..|batch|] == batch;
      all := SortMessages(all);
      BatchIsTaken(old(all), batch);
    }
  }

  lemma {:induction false} AddNewAdds(all: seq<Message>, batch: seq<Message>)
    requires DistinctIds(all) && Identified(all + batch)
    ensures DistinctIds(AddNew(all, batch)) && SameMessages(AddNew(all, batch), all + batch)
  {
    if batch == [] {
      assert all + batch == all;
    } else {
      var shorter, m := batch[..|batch| - 1], batch[|batch| - 1];
      assert batch == shorter + [m];
      assert forall x :: x in all + shorter ==> x in all + batch;
      AddNewAdds(all, shorter);
      var so := AddNew(all, shorter);
      if Knows(so, m.id) {
        var i :| 0 <= i < |so| && so[i].id == m.id;
        assert so[i] in all + batch && m in all + batch;
      }
    }
  }

  lemma {:induction false} BatchesBuildUp(batches: seq<seq<Message>>)
    requires Identified(Flatten(batches))
    ensures Canonical(AfterBatches(batches)) && SameMessages(AfterBatches(batches), Flatten(batches))
  {
    if batches != [] {
      var before, batch := batches[..|batches| - 1], batches[|batches| - 1];
      FlattenSnoc(before, batch);
      assert batches == before + [batch];
      BatchesBuildUp(before);
      var so := AfterBatches(before);
      assert forall m :: m in so + batch <==> m in Flatten(batches);
      AddNewAdds(so, batch);
      SortIsCanonical(AddNew(so, batch));
      SortKeepsMessages(AddNew(so, batch));
    }
  }

  /** A receiver fed the messages of a replica in any batches, repeated and reordered in any way,
      ends with exactly the history the replica returns. */
  lemma ReceiverEndsCanonical(batches: seq<seq<Message>>, lists: seq<seq<Message>>)
    requires DistinctIds(Flatten(lists)) && SameMessages(Flatten(batches), Flatten(lists))
    requires |Flatten(lists)| <= USIZE_LIMIT - 2
    ensures AfterBatches(batches) == Page(lists, 0, USIZE_LIMIT - 2)
  {
    DistinctIdentifies(Flatten(lists));
    BatchesBuildUp(batches);
    AllMessages(lists);
    SortIsCanonical(Flatten(lists));
    SortKeepsMessages(Flatten(lists));
    CanonicalIsUnique(AfterBatches(batches), SortMessages(Flatten(lists)));
  }
}

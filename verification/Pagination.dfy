/** Windowed reading of the message history: pages counted from the newest message. */
module Pagination {
  import opened Ordering

  const USIZE_LIMIT: nat := 0x1_0000_0000_0000_0000

  type usize = n: nat | n < USIZE_LIMIT

  /** Message ids are UUID strings; only their order and equality matter, so they are numbers here. */
  datatype Message = Message(id: nat, sender: nat, content: string, createdAt: int, updatedAt: int)

  /** The full sort key, or only the time. */
  function KeyOf(m: Message, byId: bool): Key {
    Key(m.createdAt, if byId then m.id else 0)
  }

  function KeysOf(ms: seq<Message>, byId: bool): seq<Key> {
    seq(|ms|, i requires 0 <= i < |ms| => KeyOf(ms[i], byId))
  }

  function Place(m: Message, ms: seq<Message>): seq<Message> {
    if ms == [] then [m]
    else if Leq(KeyOf(m, true), KeyOf(ms[0], true)) then [m] + ms
    else [ms[0]] + Place(m, ms[1..])
  }

  /** The stable sort by time, then id. */
  function SortMessages(ms: seq<Message>): seq<Message> {
    if ms == [] then [] else Place(ms[0], SortMessages(ms[1..]))
  }

  /** `limit` elements ending `offset` before the end, as far as there are any. */
  function Slice<T>(s: seq<T>, offset: nat, limit: nat): seq<T> {
    var end := if |s| <= offset then 0 else |s| - offset;
    var start := if end <= limit then 0 else end - limit;
    s[start..end]
  }

  /** `offset + limit` in a machine word: it wraps around. */
  function Depth(offset: usize, limit: usize): usize {
    if offset + limit < USIZE_LIMIT then offset + limit else offset + limit - USIZE_LIMIT
  }

  /** The page `get_messages` returns: only the last `Depth` messages of each list are looked at. */
  function Page(lists: seq<seq<Message>>, offset: usize, limit: usize): seq<Message> {
    Slice(SortMessages(Flatten(Tails(lists, Depth(offset, limit)))), offset, limit)
  }

  /** The page it stands for: sort everything, then slice from the end. */
  function FullPage(lists: seq<seq<Message>>, offset: usize, limit: usize): seq<Message> {
    Slice(SortMessages(Flatten(lists)), offset, limit)
  }

  ghost predicate InOrder(lists: seq<seq<Message>>, byId: bool) {
    forall i :: 0 <= i < |lists| ==> Sorted(KeysOf(lists[i], byId))
  }

  ghost predicate DistinctIds(ms: seq<Message>) {
    forall i, j :: 0 <= i < j < |ms| ==> ms[i].id != ms[j].id
  }

  /** Oldest first; messages of one time in the order of their ids. */
  ghost predicate Chronological(ms: seq<Message>) {
    forall i, j :: 0 <= i < j < |ms| ==>
      ms[i].createdAt < ms[j].createdAt || (ms[i].createdAt == ms[j].createdAt && ms[i].id <= ms[j].id)
  }

  ghost predicate InTime(ms: seq<Message>) {
    forall i, j :: 0 <= i < j < |ms| ==> ms[i].createdAt <= ms[j].createdAt
  }

  ghost predicate AllChronological(lists: seq<seq<Message>>) {
    forall i :: 0 <= i < |lists| ==> Chronological(lists[i])
  }

  // ----- sorting messages and sorting keys

  lemma SortedIsChronological(ms: seq<Message>)
    ensures Sorted(KeysOf(ms, true)) <==> Chronological(ms)
    ensures Sorted(KeysOf(ms, false)) <==> InTime(ms)
  {
    var full, times := KeysOf(ms, true), KeysOf(ms, false);
    assert forall i :: 0 <= i < |ms| ==> full[i] == Key(ms[i].createdAt, ms[i].id);
    assert forall i :: 0 <= i < |ms| ==> times[i] == Key(ms[i].createdAt, 0);
    if Sorted(full) {
      forall i, j | 0 <= i < j < |ms|
        ensures ms[i].createdAt < ms[j].createdAt || (ms[i].createdAt == ms[j].createdAt && ms[i].id <= ms[j].id)
      {
        assert Leq(full[i], full[j]);
      }
    }
    if Sorted(times) {
      forall i, j | 0 <= i < j < |ms|
        ensures ms[i].createdAt <= ms[j].createdAt
      {
        assert Leq(times[i], times[j]);
      }
    }
  }

  /** What it is for lists to be in order, said of the messages. */
  lemma InOrderIs(lists: seq<seq<Message>>)
    ensures InOrder(lists, true) <==> AllChronological(lists)
    ensures InOrder(lists, false) <==> forall i :: 0 <= i < |lists| ==> InTime(lists[i])
  {
    forall i | 0 <= i < |lists|
      ensures Sorted(KeysOf(lists[i], true)) <==> Chronological(lists[i])
      ensures Sorted(KeysOf(lists[i], false)) <==> InTime(lists[i])
    {
      SortedIsChronological(lists[i]);
    }
  }

  /** Sorting puts the messages in order, and keeps them. */
  lemma SortIsChronological(ms: seq<Message>)
    ensures Chronological(SortMessages(ms)) && multiset(SortMessages(ms)) == multiset(ms)
  {
    SortMatches(ms);
    InsertAllSorts(KeysOf(ms, true), []);
    SortedIsChronological(SortMessages(ms));
    SortPermutes(ms);
  }

  lemma {:induction false} PlaceKeepsIds(m: Message, ms: seq<Message>)
    requires DistinctIds(ms) && forall n :: n in ms ==> n.id != m.id
    ensures DistinctIds(Place(m, ms))
    ensures forall n :: n in Place(m, ms) <==> n == m || n in ms
  {
    if ms != [] && !Leq(KeyOf(m, true), KeyOf(ms[0], true)) {
      assert forall n :: n in ms[1..] ==> n in ms;
      PlaceKeepsIds(m, ms[1..]);
      assert ms == [ms[0]] + ms[1..];
      var r := Place(m, ms[1..]);
      forall i | 0 <= i < |r|
        ensures r[i].id != ms[0].id
      {
        assert r[i] in r && ms[0] in ms;
        if r[i] in ms[1..] {
          var k :| 0 <= k < |ms[1..]| && ms[1..][k] == r[i];
          assert ms[k + 1] == r[i];
        }
      }
    }
  }

  lemma {:induction false} SortKeepsIds(ms: seq<Message>)
    requires DistinctIds(ms)
    ensures DistinctIds(SortMessages(ms))
    ensures forall m :: m in SortMessages(ms) <==> m in ms
  {
    if ms != [] {
      SortKeepsIds(ms[1..]);
      PlaceKeepsIds(ms[0], SortMessages(ms[1..]));
      assert ms == [ms[0]] + ms[1..];
    }
  }

  lemma {:induction false} PlaceMatches(m: Message, ms: seq<Message>)
    ensures KeysOf(Place(m, ms), true) == Insert(KeyOf(m, true), KeysOf(ms, true))
  {
    if ms != [] && !Leq(KeyOf(m, true), KeyOf(ms[0], true)) {
      PlaceMatches(m, ms[1..]);
      assert KeysOf(ms, true)[1..] == KeysOf(ms[1..], true);
    }
  }

  lemma {:induction false} SortMatches(ms: seq<Message>)
    ensures KeysOf(SortMessages(ms), true) == Sort(KeysOf(ms, true))
  {
    if ms != [] {
      SortMatches(ms[1..]);
      PlaceMatches(ms[0], SortMessages(ms[1..]));
      assert KeysOf(ms, true)[1..] == KeysOf(ms[1..], true);
    }
  }

  lemma {:induction false} PlacePermutes(m: Message, ms: seq<Message>)
    ensures multiset(Place(m, ms)) == multiset(ms) + multiset{m}
  {
    if ms != [] && !Leq(KeyOf(m, true), KeyOf(ms[0], true)) {
      PlacePermutes(m, ms[1..]);
      HeadHolds(ms);
      HeadHolds(Place(m, ms));
      assert Place(m, ms)[1..] == Place(m, ms[1..]);
    }
  }

  lemma {:induction false} SortPermutes(ms: seq<Message>)
    ensures multiset(SortMessages(ms)) == multiset(ms)
  {
    if ms != [] {
      SortPermutes(ms[1..]);
      PlacePermutes(ms[0], SortMessages(ms[1..]));
      assert ms == [ms[0]] + ms[1..];
    }
  }

  lemma {:induction false} PlaceLength(m: Message, ms: seq<Message>)
    ensures |Place(m, ms)| == |ms| + 1
  {
    if ms != [] && !Leq(KeyOf(m, true), KeyOf(ms[0], true)) {
      PlaceLength(m, ms[1..]);
    }
  }

  lemma {:induction false} SortLength(ms: seq<Message>)
    ensures |SortMessages(ms)| == |ms|
  {
    if ms != [] {
      SortLength(ms[1..]);
      PlaceLength(ms[0], SortMessages(ms[1..]));
    }
  }

  lemma KeysSplit(ms: seq<Message>, byId: bool)
    requires ms != []
    ensures multiset(KeysOf(ms, byId)) == multiset{KeyOf(ms[0], byId)} + multiset(KeysOf(ms[1..], byId))
  {
    assert KeysOf(ms, byId) == [KeyOf(ms[0], byId)] + KeysOf(ms[1..], byId);
  }

  lemma {:induction false} PlaceKeys(m: Message, ms: seq<Message>, byId: bool)
    ensures multiset(KeysOf(Place(m, ms), byId)) == multiset(KeysOf(ms, byId)) + multiset{KeyOf(m, byId)}
  {
    KeysSplit(Place(m, ms), byId);
    if ms != [] && !Leq(KeyOf(m, true), KeyOf(ms[0], true)) {
      PlaceKeys(m, ms[1..], byId);
      KeysSplit(ms, byId);
      assert Place(m, ms)[1..] == Place(m, ms[1..]);
    } else {
      assert Place(m, ms)[1..] == ms;
    }
  }

  lemma {:induction false} SortHoldsKeys(ms: seq<Message>, byId: bool)
    ensures multiset(KeysOf(SortMessages(ms), byId)) == multiset(KeysOf(ms, byId))
  {
    if ms != [] {
      SortHoldsKeys(ms[1..], byId);
      PlaceKeys(ms[0], SortMessages(ms[1..]), byId);
      KeysSplit(ms, byId);
    }
  }

  /** Sorting messages sorts their keys, and their times as well. */
  lemma SortedKeys(ms: seq<Message>, byId: bool)
    ensures KeysOf(SortMessages(ms), byId) == Sort(KeysOf(ms, byId))
  {
    var r := SortMessages(ms);
    SortMatches(ms);
    InsertAllSorts(KeysOf(ms, true), []);
    InsertAllSorts(KeysOf(ms, byId), []);
    SortHoldsKeys(ms, byId);
    forall i, j | 0 <= i < j < |r|
      ensures Leq(KeysOf(r, byId)[i], KeysOf(r, byId)[j])
    {
      assert Leq(KeysOf(r, true)[i], KeysOf(r, true)[j]);
    }
    SortedIsUnique(KeysOf(r, byId), Sort(KeysOf(ms, byId)));
  }

  // ----- from lists of messages to lists of keys

  function KeyLists(lists: seq<seq<Message>>, byId: bool): seq<seq<Key>> {
    seq(|lists|, i requires 0 <= i < |lists| => KeysOf(lists[i], byId))
  }

  lemma {:induction false} KeysOfFlatten(lists: seq<seq<Message>>, byId: bool)
    ensures KeysOf(Flatten(lists), byId) == Flatten(KeyLists(lists, byId))
  {
    if lists != [] {
      KeysOfFlatten(lists[1..], byId);
      assert KeyLists(lists, byId)[1..] == KeyLists(lists[1..], byId);
      assert KeysOf(Flatten(lists), byId) == KeysOf(lists[0], byId) + KeysOf(Flatten(lists[1..]), byId);
    }
  }

  lemma KeysOfLast(ms: seq<Message>, d: nat, byId: bool)
    ensures KeysOf(Last(ms, d), byId) == Last(KeysOf(ms, byId), d)
  {
  }

  lemma KeyListsSplit(lists: seq<seq<Message>>, byId: bool)
    requires lists != []
    ensures KeyLists(lists, byId) == [KeysOf(lists[0], byId)] + KeyLists(lists[1..], byId)
  {
  }

  lemma {:induction false} KeysOfTails(lists: seq<seq<Message>>, d: nat, byId: bool)
    ensures KeyLists(Tails(lists, d), byId) == Tails(KeyLists(lists, byId), d)
  {
    if lists != [] {
      KeysOfTails(lists[1..], d, byId);
      KeyListsSplit(lists, byId);
      KeyListsSplit(Tails(lists, d), byId);
      assert Tails(lists, d)[1..] == Tails(lists[1..], d);
      KeysOfLast(lists[0], d, byId);
    }
  }

  lemma KeysOfSlice(ms: seq<Message>, offset: nat, limit: nat, byId: bool)
    ensures KeysOf(Slice(ms, offset, limit), byId) == Slice(KeysOf(ms, byId), offset, limit)
  {
  }

  lemma SliceInLast<T>(s: seq<T>, offset: nat, limit: nat)
    requires |s| >= offset + limit
    ensures Slice(s, offset, limit) == Last(s, offset + limit)[..limit]
  {
  }

  lemma KeysOfSorted(lists: seq<seq<Message>>, byId: bool)
    ensures KeysOf(SortMessages(Flatten(lists)), byId) == Sort(Flatten(KeyLists(lists, byId)))
  {
    SortedKeys(Flatten(lists), byId);
    KeysOfFlatten(lists, byId);
  }

  lemma DepthFits(offset: usize, limit: usize)
    requires offset + limit < USIZE_LIMIT
    ensures Depth(offset, limit) == offset + limit
  {
  }

  // ----- what a page shows

  /** If every list is in order by the chosen key, the page shows the keys of the full page. */
  lemma PageKeys(lists: seq<seq<Message>>, offset: usize, limit: usize, byId: bool)
    requires InOrder(lists, byId) && offset + limit < USIZE_LIMIT
    ensures KeysOf(Page(lists, offset, limit), byId) == KeysOf(FullPage(lists, offset, limit), byId)
  {
    DepthFits(offset, limit);
    var d, keys := offset + limit, KeyLists(lists, byId);
    KeysOfSlice(SortMessages(Flatten(Tails(lists, d))), offset, limit, byId);
    KeysOfSlice(SortMessages(Flatten(lists)), offset, limit, byId);
    KeysOfSorted(lists, byId);
    KeysOfSorted(Tails(lists, d), byId);
    KeysOfTails(lists, d, byId);
    SameSlice(keys, offset, limit);
  }

  lemma SameSlice(keys: seq<seq<Key>>, offset: nat, limit: nat)
    requires forall i :: 0 <= i < |keys| ==> Sorted(keys[i])
    ensures Slice(Sort(Flatten(keys)), offset, limit)
         == Slice(Sort(Flatten(Tails(keys, offset + limit))), offset, limit)
  {
    var d := offset + limit;
    LastOfTails(keys, d);
    if Rests(keys, d) != [] {
      TailsLength(keys, d);
      InsertAllLength(Flatten(keys), []);
      InsertAllLength(Flatten(Tails(keys, d)), []);
      SliceInLast(Sort(Flatten(keys)), offset, limit);
      SliceInLast(Sort(Flatten(Tails(keys, d))), offset, limit);
    }
  }

  /** Refinement: over any number of lists in order by time and id, with unique ids, `get_messages`
      returns exactly the slice of the fully sorted history. */
  lemma PageIsFullPage(lists: seq<seq<Message>>, offset: usize, limit: usize)
    requires InOrder(lists, true) && DistinctIds(Flatten(lists)) && offset + limit < USIZE_LIMIT
    ensures Page(lists, offset, limit) == FullPage(lists, offset, limit)
  {
    PageKeys(lists, offset, limit, true);
    PageWithin(lists, offset, limit);
    SameKeysSameMessages(Page(lists, offset, limit), FullPage(lists, offset, limit), Flatten(lists));
  }

  lemma PageWithin(lists: seq<seq<Message>>, offset: usize, limit: usize)
    ensures forall m :: m in Page(lists, offset, limit) ==> m in Flatten(lists)
    ensures forall m :: m in FullPage(lists, offset, limit) ==> m in Flatten(lists)
  {
    var some := Flatten(Tails(lists, Depth(offset, limit)));
    TailsAndRests(lists, Depth(offset, limit));
    forall m | m in SortMessages(some)
      ensures m in Flatten(lists)
    {
      SortPermutes(some);
      assert m in multiset(SortMessages(some));
      assert m in multiset(Flatten(lists));
    }
    forall m | m in SortMessages(Flatten(lists))
      ensures m in Flatten(lists)
    {
      SortPermutes(Flatten(lists));
      assert m in multiset(SortMessages(Flatten(lists)));
    }
  }

  lemma SameKeysSameMessages(a: seq<Message>, b: seq<Message>, pool: seq<Message>)
    requires DistinctIds(pool) && KeysOf(a, true) == KeysOf(b, true)
    requires forall m :: m in a || m in b ==> m in pool
    ensures a == b
  {
    assert |a| == |KeysOf(a, true)| == |b|;
    forall i | 0 <= i < |a|
      ensures a[i] == b[i]
    {
      assert KeysOf(a, true)[i] == KeysOf(b, true)[i];
      assert a[i] in a && b[i] in b;
      var j :| 0 <= j < |pool| && pool[j] == a[i];
      var k :| 0 <= k < |pool| && pool[k] == b[i];
    }
  }

  lemma SliceIsChronological(ms: seq<Message>, offset: nat, limit: nat)
    requires Chronological(ms)
    ensures Chronological(Slice(ms, offset, limit))
  {
  }

  /** A page is in order, oldest first, whatever the lists. */
  lemma PageIsChronological(lists: seq<seq<Message>>, offset: usize, limit: usize)
    ensures Chronological(Page(lists, offset, limit))
    ensures forall m :: m in Page(lists, offset, limit) ==> m in Flatten(lists)
  {
    var some := Flatten(Tails(lists, Depth(offset, limit)));
    SortIsChronological(some);
    SliceIsChronological(SortMessages(some), offset, limit);
    PageWithin(lists, offset, limit);
  }

  /** Message `m` comes before message `n`. */
  ghost predicate Earlier(m: Message, n: Message) {
    m.createdAt < n.createdAt || (m.createdAt == n.createdAt && m.id < n.id)
  }

  lemma PlaceBefore<T>(s: seq<T>, cut: nat, x: T) returns (i: nat)
    requires cut <= |s| && x in s && x !in s[cut..]
    ensures i < cut && s[i] == x
  {
    assert s == s[..cut] + s[cut..];
    assert x in s[..cut];
    i :| 0 <= i < cut && s[..cut][i] == x;
  }

  lemma PlaceAfter<T>(s: seq<T>, cut: nat, x: T) returns (i: nat)
    requires cut <= |s| && x in s[cut..]
    ensures cut <= i < |s| && s[i] == x
  {
    var k :| 0 <= k < |s| - cut && s[cut..][k] == x;
    i := cut + k;
  }

  lemma LastIsLatest(all: seq<Message>, limit: nat, m: Message, n: Message)
    requires Chronological(all) && DistinctIds(all)
    requires m in all && m !in Slice(all, 0, limit) && n in Slice(all, 0, limit)
    ensures Earlier(m, n)
  {
    var cut := if |all| <= limit then 0 else |all| - limit;
    assert Slice(all, 0, limit) == all[cut..];
    var i := PlaceBefore(all, cut, m);
    var k := PlaceAfter(all, cut, n);
    assert all[i].id != all[k].id;
  }

  /** The newest page of lists in order: no message left out is later than one shown. */
  lemma NewestPage(lists: seq<seq<Message>>, limit: usize, m: Message, n: Message)
    requires AllChronological(lists) && DistinctIds(Flatten(lists))
    requires m in Flatten(lists) && m !in Page(lists, 0, limit) && n in Page(lists, 0, limit)
    ensures Earlier(m, n)
  {
    var all := SortMessages(Flatten(lists));
    InOrderIs(lists);
    PageIsFullPage(lists, 0, limit);
    SortIsChronological(Flatten(lists));
    SortKeepsIds(Flatten(lists));
    assert m in multiset(all);
    LastIsLatest(all, limit, m, n);
  }

  /** Without any order among equal times, the page still shows the times of the full page. */
  lemma PageTimes(lists: seq<seq<Message>>, offset: usize, limit: usize)
    requires InOrder(lists, false) && offset + limit < USIZE_LIMIT
    ensures |Page(lists, offset, limit)| == |FullPage(lists, offset, limit)|
    ensures forall i :: 0 <= i < |Page(lists, offset, limit)| ==>
      Page(lists, offset, limit)[i].createdAt == FullPage(lists, offset, limit)[i].createdAt
  {
    PageKeys(lists, offset, limit, false);
    var page, full := Page(lists, offset, limit), FullPage(lists, offset, limit);
    assert |page| == |KeysOf(page, false)| == |KeysOf(full, false)|;
    forall i | 0 <= i < |page|
      ensures page[i].createdAt == full[i].createdAt
    {
      assert KeysOf(page, false)[i] == KeysOf(full, false)[i];
    }
  }

  /** How many of `total` messages a page shows. */
  function Shown(total: nat, offset: nat, limit: nat): nat {
    var left := if total <= offset then 0 else total - offset;
    if left <= limit then left else limit
  }

  lemma SliceLength<T>(s: seq<T>, offset: nat, limit: nat)
    ensures |Slice(s, offset, limit)| == Shown(|s|, offset, limit)
  {
  }

  lemma EnoughToShow(kept: nat, total: nat, offset: nat, limit: nat)
    requires kept == total || (kept < total && offset + limit <= kept)
    ensures Shown(kept, offset, limit) == Shown(total, offset, limit)
  {
  }

  lemma TailsSuffice(lists: seq<seq<Message>>, d: nat)
    ensures
      var kept, total := |Flatten(Tails(lists, d))|, |Flatten(lists)|;
      kept == total || (kept < total && d <= kept)
  {
    TailsLength(lists, d);
  }

  /** For any lists at all, a page has the length of the full page: min(limit, max(0, total - offset)). */
  lemma PageLength(lists: seq<seq<Message>>, offset: usize, limit: usize)
    requires offset + limit < USIZE_LIMIT
    ensures
      var left := if |Flatten(lists)| <= offset then 0 else |Flatten(lists)| - offset;
      |Page(lists, offset, limit)| == if left <= limit then left else limit
  {
    DepthFits(offset, limit);
    KeptPageLength(lists, Flatten(Tails(lists, offset + limit)), offset, limit);
  }

  lemma KeptPageLength(lists: seq<seq<Message>>, kept: seq<Message>, offset: nat, limit: nat)
    requires kept == Flatten(Tails(lists, offset + limit))
    ensures |Slice(SortMessages(kept), offset, limit)| == Shown(|Flatten(lists)|, offset, limit)
  {
    SortLength(kept);
    SliceLength(SortMessages(kept), offset, limit);
    TailsSuffice(lists, offset + limit);
    EnoughToShow(|kept|, |Flatten(lists)|, offset, limit);
  }

  /** When `offset + limit` does not fit a machine word, the page is the full page exactly if the
      wrapped depth still covers every list, or there is nothing to show. */
  lemma OverflowingPage(lists: seq<seq<Message>>, offset: usize, limit: usize)
    requires offset + limit >= USIZE_LIMIT && |Flatten(lists)| < USIZE_LIMIT
    ensures Page(lists, offset, limit) == FullPage(lists, offset, limit) <==>
      || |Flatten(lists)| <= offset
      || forall i :: 0 <= i < |lists| ==> |lists[i]| <= Depth(offset, limit)
  {
    var d := Depth(offset, limit);
    SortLength(Flatten(lists));
    SortLength(Flatten(Tails(lists, d)));
    TailsLength(lists, d);
    RestsEmptyIff(lists, d);
  }

  /** Skipping the newest of two messages and asking for as many as a machine word can say shows
      nothing instead of the older one. */
  lemma OverflowHides(a: Message, b: Message)
    ensures Page([[a, b]], 1, USIZE_LIMIT - 1) == []
    ensures |FullPage([[a, b]], 1, USIZE_LIMIT - 1)| == 1
  {
    assert Flatten([[a, b]]) == [a, b] + Flatten([[a, b]][1..]);
    SortLength(Flatten([[a, b]]));
    SortLength(Flatten(Tails([[a, b]], 0)));
    TailsLength([[a, b]], 0);
    assert Rests([[a, b]], 0) == [a, b][..2] + Rests([[a, b]][1..], 0);
  }

  lemma {:induction false} RestsEmptyIff(lists: seq<seq<Message>>, d: nat)
    ensures Rests(lists, d) == [] <==> forall i :: 0 <= i < |lists| ==> |lists[i]| <= d
    ensures Rests(lists, d) == [] ==> Flatten(Tails(lists, d)) == Flatten(lists)
  {
    if lists != [] {
      RestsEmptyIff(lists[1..], d);
      assert Tails(lists, d)[1..] == Tails(lists[1..], d);
      if forall i :: 0 <= i < |lists| ==> |lists[i]| <= d {
        assert forall i :: 0 <= i < |lists[1..]| ==> lists[1..][i] == lists[i + 1];
      } else if |lists[0]| <= d {
        var i :| 0 <= i < |lists| && |lists[i]| > d;
        assert lists[1..][i - 1] == lists[i];
      }
    }
  }

  // ----- reading the history page by page

  /** How many messages `n` pages of one size hold. */
  function Span(size: nat, n: nat): nat {
    if n == 0 then 0 else Span(size, n - 1) + size
  }

  /** Pages `n - 1` down to 0, oldest first, as a caller would join them. */
  function Joined(lists: seq<seq<Message>>, size: usize, n: nat): seq<Message>
    requires Span(size, n) < USIZE_LIMIT
  {
    if n == 0 then [] else Page(lists, Span(size, n - 1), size) + Joined(lists, size, n - 1)
  }

  /** Consecutive pages join without gap or repetition to the end of the sorted history; as many
      pages as cover it give the whole history. */
  lemma {:induction false} PagesJoin(lists: seq<seq<Message>>, size: usize, n: nat)
    requires InOrder(lists, true) && DistinctIds(Flatten(lists)) && Span(size, n) < USIZE_LIMIT
    ensures Joined(lists, size, n) == Last(SortMessages(Flatten(lists)), Span(size, n))
  {
    if n > 0 {
      PagesJoin(lists, size, n - 1);
      PageBeforeLast(lists, Span(size, n - 1), size);
    }
  }

  lemma PageBeforeLast(lists: seq<seq<Message>>, offset: usize, limit: usize)
    requires InOrder(lists, true) && DistinctIds(Flatten(lists)) && offset + limit < USIZE_LIMIT
    ensures
      var all := SortMessages(Flatten(lists));
      Page(lists, offset, limit) + Last(all, offset) == Last(all, offset + limit)
  {
    PageIsFullPage(lists, offset, limit);
    SliceBeforeLast(SortMessages(Flatten(lists)), offset, limit);
  }

  lemma SliceBeforeLast<T>(s: seq<T>, offset: nat, limit: nat)
    ensures Slice(s, offset, limit) + Last(s, offset) == Last(s, offset + limit)
  {
  }

  /** `get_all_messages` returns the whole history, sorted, whatever the order inside the lists. */
  lemma AllMessages(lists: seq<seq<Message>>)
    requires |Flatten(lists)| <= USIZE_LIMIT - 2
    ensures Page(lists, 0, USIZE_LIMIT - 2) == SortMessages(Flatten(lists))
    ensures Chronological(Page(lists, 0, USIZE_LIMIT - 2))
    ensures multiset(Page(lists, 0, USIZE_LIMIT - 2)) == multiset(Flatten(lists))
  {
    SortIsChronological(Flatten(lists));
    var d := Depth(0, USIZE_LIMIT - 2);
    LongestList(lists);
    RestsEmptyIff(lists, d);
    SortLength(Flatten(lists));
  }

  /** As many pages as cover the history join to what `get_all_messages` returns. */
  lemma PagesJoinToAll(lists: seq<seq<Message>>, size: usize, n: nat)
    requires InOrder(lists, true) && DistinctIds(Flatten(lists))
    requires |Flatten(lists)| <= Span(size, n) < USIZE_LIMIT && |Flatten(lists)| <= USIZE_LIMIT - 2
    ensures Joined(lists, size, n) == Page(lists, 0, USIZE_LIMIT - 2)
  {
    PagesJoin(lists, size, n);
    AllMessages(lists);
    SortLength(Flatten(lists));
  }

  lemma {:induction false} LongestList<T>(lists: seq<seq<T>>)
    ensures forall i :: 0 <= i < |lists| ==> |lists[i]| <= |Flatten(lists)|
  {
    if lists != [] {
      LongestList(lists[1..]);
      forall i | 0 <= i < |lists|
        ensures |lists[i]| <= |Flatten(lists)|
      {
        assert i > 0 ==> lists[i] == lists[1..][i - 1];
      }
    }
  }

  // ----- the operation

  /** The inner loop of `get_messages`: one list's messages from `start` on. */
  method PushFrom(candidates: seq<Message>, list: seq<Message>, start: nat) returns (r: seq<Message>)
    requires start <= |list|
    ensures r == candidates + list[start..]
  {
    r := candidates;
    for i := start to |list|
      invariant r == candidates + list[start..i]
    {
      r := r + [list[i]];
    }
  }

  /** The outer loop of `get_messages`: the candidates for the page. */
  method CollectCandidates(lists: seq<seq<Message>>, fetchDepth: nat) returns (candidates: seq<Message>)
    ensures candidates == Flatten(Tails(lists, fetchDepth))
  {
    candidates := [];
    for i := 0 to |lists|
      invariant candidates == Flatten(Tails(lists[..i], fetchDepth))
    {
      FlattenTailsSnoc(lists, i, fetchDepth);
      var len := |lists[i]|;
      if len != 0 {
        var start := if len <= fetchDepth then 0 else len - fetchDepth;
        candidates := PushFrom(candidates, lists[i], start);
      }
    }
    assert lists[..|lists|] == lists;
  }

  lemma PageFacts(lists: seq<seq<Message>>, offset: usize, limit: usize)
    requires AllChronological(lists) && DistinctIds(Flatten(lists)) && offset + limit < USIZE_LIMIT
    ensures Page(lists, offset, limit) == FullPage(lists, offset, limit)
    ensures offset == 0 ==>
      forall m, n :: m in Flatten(lists) && m !in Page(lists, offset, limit) && n in Page(lists, offset, limit)
        ==> Earlier(m, n)
  {
    InOrderIs(lists);
    PageIsFullPage(lists, offset, limit);
    forall m, n | offset == 0 && m in Flatten(lists) && m !in Page(lists, offset, limit)
                  && n in Page(lists, offset, limit)
      ensures Earlier(m, n)
    {
      NewestPage(lists, limit, m, n);
    }
  }

  /** The last lines of `get_messages`. */
  method TakeSlice(candidates: seq<Message>, offset: nat, limit: nat) returns (page: seq<Message>)
    ensures page == Slice(candidates, offset, limit)
  {
    var total := |candidates|;
    var end := if total <= offset then 0 else total - offset;
    var start := if end <= limit then 0 else end - limit;
    if start >= end {
      page := [];
    } else {
      page := candidates[start..end];
    }
  }

  /** `get_messages`. */
  method GetMessages(lists: seq<seq<Message>>, offset: usize, limit: usize) returns (page: seq<Message>)
    ensures page == Page(lists, offset, limit)
    ensures Chronological(page) && forall m :: m in page ==> m in Flatten(lists)
    ensures AllChronological(lists) && DistinctIds(Flatten(lists)) && offset + limit < USIZE_LIMIT
      ==> page == FullPage(lists, offset, limit)
    ensures AllChronological(lists) && DistinctIds(Flatten(lists)) && offset == 0 ==>
      forall m, n :: m in Flatten(lists) && m !in page && n in page ==> Earlier(m, n)
  {
    var candidates := CollectCandidates(lists, Depth(offset, limit));
    candidates := SortMessages(candidates);
    page := TakeSlice(candidates, offset, limit);
    PageIsChronological(lists, offset, limit);
    if AllChronological(lists) && DistinctIds(Flatten(lists)) && offset + limit < USIZE_LIMIT {
      PageFacts(lists, offset, limit);
    }
  }

  lemma FlattenTailsSnoc<T>(lists: seq<seq<T>>, i: nat, d: nat)
    requires i < |lists|
    ensures Flatten(Tails(lists[..i + 1], d)) == Flatten(Tails(lists[..i], d)) + Last(lists[i], d)
  {
    assert lists[..i + 1] == lists[..i] + [lists[i]];
    TailsSnoc(lists[..i], lists[i], d);
    FlattenSnoc(Tails(lists[..i], d), Last(lists[i], d));
  }
}

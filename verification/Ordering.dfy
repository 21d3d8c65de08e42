/** Sorting by key, and what the largest elements of a sorted sequence depend on. */
module Ordering {

  /** The sort key of a message: time first, then id. */
  datatype Key = Key(time: int, id: nat)

  predicate Leq(a: Key, b: Key) {
    a.time < b.time || (a.time == b.time && a.id <= b.id)
  }

  ghost predicate Sorted(s: seq<Key>) {
    forall i, j :: 0 <= i < j < |s| ==> Leq(s[i], s[j])
  }

  /** Puts `k` before the first element that is not smaller. */
  function Insert(k: Key, s: seq<Key>): seq<Key> {
    if s == [] then [k]
    else if Leq(k, s[0]) then [k] + s
    else [s[0]] + Insert(k, s[1..])
  }

  function InsertAll(ks: seq<Key>, s: seq<Key>): seq<Key> {
    if ks == [] then s else Insert(ks[0], InsertAll(ks[1..], s))
  }

  function Sort(s: seq<Key>): seq<Key> {
    InsertAll(s, [])
  }

  /** The last `d` elements, or all if there are fewer. */
  function Last<T>(s: seq<T>, d: nat): seq<T> {
    if |s| <= d then s else s[|s| - d..]
  }

  lemma HeadHolds<T>(s: seq<T>)
    requires s != []
    ensures multiset(s) == multiset{s[0]} + multiset(s[1..])
  {
    assert s == [s[0]] + s[1..];
  }

  lemma {:induction false} InsertHolds(k: Key, s: seq<Key>)
    ensures multiset(Insert(k, s)) == multiset(s) + multiset{k}
  {
    if s != [] && !Leq(k, s[0]) {
      InsertHolds(k, s[1..]);
      HeadHolds(s);
      HeadHolds(Insert(k, s));
      assert Insert(k, s)[1..] == Insert(k, s[1..]);
    }
  }

  lemma PrependSorted(k: Key, s: seq<Key>)
    requires Sorted(s) && forall i :: 0 <= i < |s| ==> Leq(k, s[i])
    ensures Sorted([k] + s)
  {
  }

  lemma {:induction false} InsertSorts(k: Key, s: seq<Key>)
    requires Sorted(s)
    ensures Sorted(Insert(k, s)) && multiset(Insert(k, s)) == multiset(s) + multiset{k}
  {
    InsertHolds(k, s);
    if s != [] && !Leq(k, s[0]) {
      InsertSorts(k, s[1..]);
      var r := Insert(k, s[1..]);
      forall i | 0 <= i < |r|
        ensures Leq(s[0], r[i])
      {
        InsertHolds(k, s[1..]);
        assert r[i] in multiset(r);
        assert r[i] == k || r[i] in s[1..];
      }
      PrependSorted(s[0], r);
    } else if s != [] {
      PrependSorted(k, s);
    }
  }

  lemma {:induction false} InsertAllSorts(ks: seq<Key>, s: seq<Key>)
    requires Sorted(s)
    ensures Sorted(InsertAll(ks, s)) && multiset(InsertAll(ks, s)) == multiset(s) + multiset(ks)
  {
    if ks != [] {
      InsertAllSorts(ks[1..], s);
      InsertSorts(ks[0], InsertAll(ks[1..], s));
      HeadHolds(ks);
    }
  }

  lemma HeadIsLeast(s: seq<Key>, k: Key)
    requires Sorted(s) && k in multiset(s)
    ensures Leq(s[0], k)
  {
    assert k in s;
  }

  lemma TailHolds(s: seq<Key>)
    requires s != []
    ensures multiset(s[1..]) == multiset(s) - multiset{s[0]}
  {
    assert s == [s[0]] + s[1..];
  }

  /** A sorted sequence is determined by what it holds. */
  lemma {:induction false} SortedIsUnique(a: seq<Key>, b: seq<Key>)
    requires Sorted(a) && Sorted(b) && multiset(a) == multiset(b)
    ensures a == b
  {
    assert |a| == |multiset(a)| == |multiset(b)| == |b|;
    if a != [] {
      HeadIsLeast(b, a[0]);
      HeadIsLeast(a, b[0]);
      TailHolds(a);
      TailHolds(b);
      SortedIsUnique(a[1..], b[1..]);
    }
  }

  /** How many elements are at least `k`. */
  ghost function CountFrom(s: seq<Key>, k: Key): nat {
    if s == [] then 0 else (if Leq(k, s[0]) then 1 else 0) + CountFrom(s[1..], k)
  }

  lemma {:induction false} CountConcat(a: seq<Key>, b: seq<Key>, k: Key)
    ensures CountFrom(a + b, k) == CountFrom(a, k) + CountFrom(b, k)
  {
    if a == [] {
      assert a + b == b;
    } else {
      CountConcat(a[1..], b, k);
      assert (a + b)[1..] == a[1..] + b;
    }
  }

  lemma {:induction false} CountAll(s: seq<Key>, k: Key)
    requires forall i :: 0 <= i < |s| ==> Leq(k, s[i])
    ensures CountFrom(s, k) == |s|
  {
    if s != [] {
      CountAll(s[1..], k);
    }
  }

  lemma {:induction false} CountInsert(x: Key, s: seq<Key>, k: Key)
    ensures CountFrom(Insert(x, s), k) == CountFrom(s, k) + CountFrom([x], k)
  {
    if s == [] || Leq(x, s[0]) {
      CountConcat([x], s, k);
      assert [x] + [] == [x];
    } else {
      CountInsert(x, s[1..], k);
      assert Insert(x, s)[1..] == Insert(x, s[1..]);
    }
  }

  lemma {:induction false} CountInsertAll(ks: seq<Key>, s: seq<Key>, k: Key)
    ensures CountFrom(InsertAll(ks, s), k) == CountFrom(s, k) + CountFrom(ks, k)
  {
    if ks != [] {
      CountInsertAll(ks[1..], s, k);
      CountInsert(ks[0], InsertAll(ks[1..], s), k);
      CountConcat([ks[0]], ks[1..], k);
      assert [ks[0]] + ks[1..] == ks;
    }
  }

  /** If at least `d` elements of a sorted sequence are not below `k`, its last `d` are among them. */
  lemma {:induction false} CountReaches(s: seq<Key>, k: Key, d: nat)
    requires Sorted(s) && 0 < d <= CountFrom(s, k)
    ensures d <= |s| && Leq(k, s[|s| - d])
  {
    CountBound(s, k);
    if Leq(k, s[0]) {
      assert Leq(s[0], s[|s| - d]) || |s| == d;
    } else {
      CountReaches(s[1..], k, d);
    }
  }

  lemma CountBound(s: seq<Key>, k: Key)
    ensures CountFrom(s, k) <= |s|
  {
  }

  lemma LastDrops<T>(x: T, s: seq<T>, d: nat)
    requires d <= |s|
    ensures Last([x] + s, d) == Last(s, d)
  {
  }

  /** Inserting an element that is not above the last `d` leaves them alone. */
  lemma {:induction false} InsertKeepsLast(k: Key, s: seq<Key>, d: nat)
    requires Sorted(s) && d <= |s| && (d > 0 ==> Leq(k, s[|s| - d]))
    ensures Last(Insert(k, s), d) == Last(s, d)
  {
    InsertLength(k, s);
    if s != [] && !Leq(k, s[0]) {
      assert d < |s|;
      var r := Insert(k, s[1..]);
      InsertKeepsLast(k, s[1..], d);
      InsertLength(k, s[1..]);
      LastDrops(s[0], r, d);
      LastDrops(s[0], s[1..], d);
      assert s == [s[0]] + s[1..];
    } else {
      LastDrops(k, s, d);
      assert s == [] ==> [k] + s == [k];
    }
  }

  lemma {:induction false} InsertLength(k: Key, s: seq<Key>)
    ensures |Insert(k, s)| == |s| + 1
  {
    if s != [] && !Leq(k, s[0]) {
      InsertLength(k, s[1..]);
    }
  }

  lemma {:induction false} InsertAllLength(ks: seq<Key>, s: seq<Key>)
    ensures |InsertAll(ks, s)| == |s| + |ks|
  {
    if ks != [] {
      InsertAllLength(ks[1..], s);
      InsertLength(ks[0], InsertAll(ks[1..], s));
    }
  }

  lemma {:induction false} InsertAllKeepsLast(ks: seq<Key>, s: seq<Key>, d: nat)
    requires Sorted(s) && d <= |s|
    requires d > 0 ==> forall i :: 0 <= i < |ks| ==> Leq(ks[i], s[|s| - d])
    ensures Last(InsertAll(ks, s), d) == Last(s, d)
  {
    if ks != [] {
      var r := InsertAll(ks[1..], s);
      InsertAllKeepsLast(ks[1..], s, d);
      InsertAllSorts(ks[1..], s);
      InsertAllLength(ks[1..], s);
      if d > 0 {
        assert Last(r, d)[0] == Last(s, d)[0];
      }
      InsertKeepsLast(ks[0], r, d);
    }
  }

  // ----- several lists

  function Flatten<T>(lists: seq<seq<T>>): seq<T> {
    if lists == [] then [] else lists[0] + Flatten(lists[1..])
  }

  /** The last `d` elements of each list. */
  function Tails<T>(lists: seq<seq<T>>, d: nat): seq<seq<T>> {
    if lists == [] then [] else [Last(lists[0], d)] + Tails(lists[1..], d)
  }

  /** What `Tails` leaves out. */
  ghost function Rests<T>(lists: seq<seq<T>>, d: nat): seq<T> {
    if lists == [] then []
    else (if |lists[0]| <= d then [] else lists[0][..|lists[0]| - d]) + Rests(lists[1..], d)
  }

  lemma {:induction false} FlattenSnoc<T>(lists: seq<seq<T>>, l: seq<T>)
    ensures Flatten(lists + [l]) == Flatten(lists) + l
  {
    if lists == [] {
      assert lists + [l] == [l];
      assert Flatten([l]) == l + Flatten<T>([]);
    } else {
      FlattenSnoc(lists[1..], l);
      assert (lists + [l])[1..] == lists[1..] + [l];
    }
  }

  lemma {:induction false} TailsSnoc<T>(lists: seq<seq<T>>, l: seq<T>, d: nat)
    ensures Tails(lists + [l], d) == Tails(lists, d) + [Last(l, d)]
  {
    if lists == [] {
      assert lists + [l] == [l];
    } else {
      TailsSnoc(lists[1..], l, d);
      assert (lists + [l])[1..] == lists[1..] + [l];
    }
  }

  lemma {:induction false} TailsAndRests<T>(lists: seq<seq<T>>, d: nat)
    ensures multiset(Flatten(lists)) == multiset(Flatten(Tails(lists, d))) + multiset(Rests(lists, d))
  {
    if lists != [] {
      TailsAndRests(lists[1..], d);
      var l := lists[0];
      assert Tails(lists, d)[1..] == Tails(lists[1..], d);
      if |l| > d {
        assert l == l[..|l| - d] + l[|l| - d..];
      }
    }
  }

  lemma {:induction false} TailsLength<T>(lists: seq<seq<T>>, d: nat)
    ensures |Flatten(lists)| == |Flatten(Tails(lists, d))| + |Rests(lists, d)|
    ensures Rests(lists, d) != [] ==> |Flatten(Tails(lists, d))| >= d
  {
    if lists != [] {
      TailsLength(lists[1..], d);
      assert Tails(lists, d)[1..] == Tails(lists[1..], d);
    }
  }

  /** Each element left out has `d` elements above it among those kept. */
  lemma {:induction false} RestsAreDominated(lists: seq<seq<Key>>, d: nat, k: Key)
    requires forall i :: 0 <= i < |lists| ==> Sorted(lists[i])
    requires k in Rests(lists, d)
    ensures CountFrom(Flatten(Tails(lists, d)), k) >= d
  {
    var l, tail := lists[0], Last(lists[0], d);
    assert Tails(lists, d)[1..] == Tails(lists[1..], d);
    CountConcat(tail, Flatten(Tails(lists[1..], d)), k);
    if k in Rests(lists[1..], d) {
      RestsAreDominated(lists[1..], d, k);
    } else {
      var i :| 0 <= i < |l| - d && l[i] == k;
      assert forall j :: 0 <= j < |tail| ==> tail[j] == l[|l| - d + j];
      CountAll(tail, k);
    }
  }

  /** The last `d` of all elements can be found among the last `d` of each list. */
  lemma LastOfTails(lists: seq<seq<Key>>, d: nat)
    requires forall i :: 0 <= i < |lists| ==> Sorted(lists[i])
    ensures Last(Sort(Flatten(lists)), d) == Last(Sort(Flatten(Tails(lists, d))), d)
    ensures Rests(lists, d) == [] ==> Sort(Flatten(lists)) == Sort(Flatten(Tails(lists, d)))
  {
    var kept, rest := Flatten(Tails(lists, d)), Rests(lists, d);
    var s := Sort(kept);
    TailsAndRests(lists, d);
    TailsLength(lists, d);
    InsertAllSorts(kept, []);
    InsertAllSorts(rest, s);
    InsertAllSorts(Flatten(lists), []);
    SortedIsUnique(Sort(Flatten(lists)), InsertAll(rest, s));
    InsertAllLength(kept, []);
    if rest != [] {
      forall i | 0 <= i < |rest|
        ensures d > 0 ==> Leq(rest[i], s[|s| - d])
      {
        RestsAreDominated(lists, d, rest[i]);
        CountInsertAll(kept, [], rest[i]);
        if d > 0 {
          CountReaches(s, rest[i], d);
        }
      }
      InsertAllKeepsLast(rest, s, d);
    }
  }
}
